/** The driver of src/main.rs: resolve every declared pin, then stream the manifest,
    replacing the `_commit`, `_tag` and `source=` lines and copying every other line. */
module Pins {
  import opened Errors
  import opened Strings
  import opened Git
  import opened Makepkg
  import opened Resolve

  /** The repository directory next to the manifest for each pin filename
      (`folder.join(filename)`); a name that is not a key has no directory. */
  type Repos = map<string, RepoState>

  function RepoAt(repos: Repos, name: string): RepoState {
    if name in repos then repos[name] else Missing
  }

  // ---------------------------------------------------------------------------
  // Resolving the pins (src/main.rs:43-57)

  /** One turn of the resolution loop: the pin's filename, then its variant, then its
      repository. */
  function ResolvePin(pin: Input, naming: Naming, repos: Repos): (r: Result<(string, ResolvedPin)>)
    ensures r.Ok? ==> InputFilename(pin, naming) == Ok(r.value.0)
    ensures r.Ok? ==> InnerSource(pin).Git? && r.value.1.source == InnerSource(pin)
    ensures InputFilename(pin, naming).Ok? && InnerSource(pin).File? ==> r == Err(FileSourceInPins)
    ensures InputFilename(pin, naming).Ok? && InnerSource(pin).Url? ==> r == Err(UrlSourceInPins)
    ensures InputFilename(pin, naming).Err? ==> r == Err(InputFilename(pin, naming).error)
    ensures InputFilename(pin, naming).Ok? && InnerSource(pin).Git? ==>
      var name := InputFilename(pin, naming).value;
      var run := Run(InnerSource(pin).git, name, RepoAt(repos, name));
      && (r.Ok? <==> run.Ok?)
      && (r.Ok? ==> r.value == (name, run.value))
      && (r.Err? ==> r.error == run.error)
  {
    match InputFilename(pin, naming)
    case Err(e) => Err(e)
    case Ok(name) =>
      match InnerSource(pin)
      case File(_) => Err(FileSourceInPins)
      case Url(_) => Err(UrlSourceInPins)
      case Git(g) =>
        match Run(g, name, RepoAt(repos, name))
        case Err(e) => Err(e)
        case Ok(resolved) => Ok((name, resolved))
  }

  /** The map the loop has built after the given pins: each resolved pin inserted under
      its filename, a later one replacing an earlier one; the first failure stops it. */
  function ResolveAll(pins: seq<Input>, naming: Naming, repos: Repos): (r: Result<map<string, ResolvedPin>>)
    decreases |pins|
    ensures r.Ok? <==> forall k :: 0 <= k < |pins| ==> ResolvePin(pins[k], naming, repos).Ok?
    ensures r.Ok? ==> forall k :: 0 <= k < |pins| ==> ResolvePin(pins[k], naming, repos).value.0 in r.value
  {
    if pins == [] then Ok(map[])
    else
      var last := |pins| - 1;
      var prefix := ResolveAll(pins[..last], naming, repos);
      var step := ResolvePin(pins[last], naming, repos);
      assert forall k :: 0 <= k < last ==> pins[..last][k] == pins[k];
      if prefix.Err? then Err(prefix.error)
      else if step.Err? then Err(step.error)
      else Ok(prefix.value[step.value.0 := step.value.1])
  }

  /** Every key of the map is the filename of some pin. */
  lemma {:induction false} ResolveAllKeys(pins: seq<Input>, naming: Naming, repos: Repos, name: string)
    requires ResolveAll(pins, naming, repos).Ok? && name in ResolveAll(pins, naming, repos).value
    ensures exists k :: 0 <= k < |pins| && ResolvePin(pins[k], naming, repos).value.0 == name
  {
    var last := |pins| - 1;
    assert forall j :: 0 <= j < last ==> pins[..last][j] == pins[j];
    if ResolvePin(pins[last], naming, repos).value.0 != name {
      ResolveAllKeys(pins[..last], naming, repos, name);
      var k :| 0 <= k < last && ResolvePin(pins[..last][k], naming, repos).value.0 == name;
      assert ResolvePin(pins[k], naming, repos).value.0 == name;
    }
  }

  /** A pin whose filename no later pin repeats is the one the map keeps for that name. */
  lemma {:induction false} ResolveAllLastWins(pins: seq<Input>, naming: Naming, repos: Repos, k: nat)
    requires ResolveAll(pins, naming, repos).Ok? && k < |pins|
    requires forall j :: k < j < |pins| ==>
      ResolvePin(pins[j], naming, repos).value.0 != ResolvePin(pins[k], naming, repos).value.0
    ensures var (name, resolved) := ResolvePin(pins[k], naming, repos).value;
      ResolveAll(pins, naming, repos).value[name] == resolved
  {
    var last := |pins| - 1;
    assert forall j :: 0 <= j < last ==> pins[..last][j] == pins[j];
    if k < last {
      ResolveAllLastWins(pins[..last], naming, repos, k);
    }
  }

  /** The whole loop fails with the error of the first pin that fails. */
  lemma {:induction false} ResolveAllFirstError(pins: seq<Input>, naming: Naming, repos: Repos, k: nat)
    requires k < |pins| && ResolvePin(pins[k], naming, repos).Err?
    requires forall j :: 0 <= j < k ==> ResolvePin(pins[j], naming, repos).Ok?
    ensures ResolveAll(pins, naming, repos) == Err(ResolvePin(pins[k], naming, repos).error)
  {
    var last := |pins| - 1;
    assert forall j :: 0 <= j < last ==> pins[..last][j] == pins[j];
    if k < last {
      ResolveAllFirstError(pins[..last], naming, repos, k);
    }
  }

  /** Once a prefix of the pins fails, the whole list fails with the same error. */
  lemma {:induction false} ResolveAllPrefixError(pins: seq<Input>, naming: Naming, repos: Repos, i: nat)
    requires i <= |pins| && ResolveAll(pins[..i], naming, repos).Err?
    ensures ResolveAll(pins, naming, repos) == ResolveAll(pins[..i], naming, repos)
    decreases |pins| - i
  {
    if i < |pins| {
      var longer := pins[..i + 1];
      assert longer[..i] == pins[..i];
      assert ResolveAll(longer, naming, repos) == Err(ResolveAll(pins[..i], naming, repos).error);
      ResolveAllPrefixError(pins, naming, repos, i + 1);
    } else {
      assert pins[..i] == pins;
    }
  }

  /** One more pin extends the map, or stops the loop with its error. */
  lemma ResolveAllStep(pins: seq<Input>, naming: Naming, repos: Repos, i: nat)
    requires i < |pins| && ResolveAll(pins[..i], naming, repos).Ok?
    ensures var step := ResolvePin(pins[i], naming, repos);
      ResolveAll(pins[..i + 1], naming, repos)
      == if step.Err? then Err(step.error)
         else Ok(ResolveAll(pins[..i], naming, repos).value[step.value.0 := step.value.1])
  {
    assert pins[..i + 1][..i] == pins[..i] && pins[..i + 1][i] == pins[i];
  }

  /** The body of the resolution loop for one pin: its filename, then its variant,
      then `git::run` on the repository named after it. */
  method ResolveOne(pin: Input, naming: Naming, repos: Repos) returns (r: Result<(string, ResolvedPin)>)
    ensures r == ResolvePin(pin, naming, repos)
  {
    var filename := InputFilename(pin, naming);
    if filename.Err? {
      return Err(filename.error);
    }
    match InnerSource(pin)
    case File(_) =>
      return Err(FileSourceInPins);
    case Url(_) =>
      return Err(UrlSourceInPins);
    case Git(git) =>
      var resolved := Run(git, filename.value, RepoAt(repos, filename.value));
      if resolved.Err? {
        return Err(resolved.error);
      }
      r := Ok((filename.value, resolved.value));
  }

  /** The resolution loop of `main`. */
  method ResolvePins(pins: seq<Input>, naming: Naming, repos: Repos) returns (r: Result<map<string, ResolvedPin>>)
    ensures r == ResolveAll(pins, naming, repos)
  {
    var resolvedPins: map<string, ResolvedPin> := map[];
    for i := 0 to |pins|
      invariant ResolveAll(pins[..i], naming, repos) == Ok(resolvedPins)
    {
      var step := ResolveOne(pins[i], naming, repos);
      ResolveAllStep(pins, naming, repos, i);
      if step.Err? {
        ResolveAllPrefixError(pins, naming, repos, i + 1);
        return Err(step.error);
      }
      resolvedPins := resolvedPins[step.value.0 := step.value.1];
    }
    assert pins[..|pins|] == pins;
    r := Ok(resolvedPins);
  }

  // ---------------------------------------------------------------------------
  // Rebuilding the source array (src/main.rs:91-110)

  /** The entry with its source replaced by the pin's, and the Git metadata set:
      pinning to the commit drops the tag and sets the commit hash, pinning to the tag
      sets the tag hash and keeps the commit. */
  function Repin(input: Input, pin: ResolvedPin, pinCommit: bool): (r: Input)
    ensures r.Url? <==> input.Url?
    ensures input.UrlWithFilename? ==> r.name == input.name
    ensures !pin.source.Git? ==> InnerSource(r) == pin.source
    ensures pin.source.Git? && pinCommit ==>
      InnerSource(r) == Git(pin.source.git.(tag := None, commit := Some(pin.commitHash)))
    ensures pin.source.Git? && !pinCommit ==>
      InnerSource(r) == Git(pin.source.git.(tag := Some(pin.tagHash)))
  {
    var replaced := WithSource(input, pin.source);
    match pin.source
    case Git(git) =>
      if pinCommit then WithSource(replaced, Git(git.(tag := None, commit := Some(pin.commitHash))))
      else WithSource(replaced, Git(git.(tag := Some(pin.tagHash))))
    case _ => replaced
  }

  /** One entry of the new array: repinned when its filename is a key of the map,
      untouched otherwise; a filename that cannot be derived stops the rewrite. */
  function RebuildEntry(input: Input, pins: map<string, ResolvedPin>, pinCommit: bool, naming: Naming): (r: Result<Input>)
    ensures InputFilename(input, naming).Err? ==> r == Err(InputFilename(input, naming).error)
    ensures InputFilename(input, naming).Ok? && InputFilename(input, naming).value in pins ==>
      r == Ok(Repin(input, pins[InputFilename(input, naming).value], pinCommit))
    ensures InputFilename(input, naming).Ok? && InputFilename(input, naming).value !in pins ==> r == Ok(input)
  {
    match InputFilename(input, naming)
    case Err(e) => Err(e)
    case Ok(name) => Ok(if name in pins then Repin(input, pins[name], pinCommit) else input)
  }

  /** All entries rebuilt, in order, or the first failure. */
  function RebuildAll(inputs: seq<Input>, pins: map<string, ResolvedPin>, pinCommit: bool, naming: Naming): (r: Result<seq<Input>>)
    ensures r.Ok? <==> forall k :: 0 <= k < |inputs| ==> InputFilename(inputs[k], naming).Ok?
    ensures r.Ok? ==> |r.value| == |inputs|
    ensures r.Ok? ==> forall k :: 0 <= k < |inputs| ==> r.value[k] == RebuildEntry(inputs[k], pins, pinCommit, naming).value
  {
    if inputs == [] then Ok([])
    else
      var entry := RebuildEntry(inputs[0], pins, pinCommit, naming);
      var rest := RebuildAll(inputs[1..], pins, pinCommit, naming);
      assert forall k :: 1 <= k < |inputs| ==> inputs[1..][k - 1] == inputs[k];
      if entry.Err? then Err(entry.error)
      else if rest.Err? then Err(rest.error)
      else
        var r := [entry.value] + rest.value;
        assert forall k :: 1 <= k < |inputs| ==> r[k] == rest.value[k - 1];
        Ok(r)
  }

  /** The error of a failed rebuild is that of the first entry without a filename. */
  lemma {:induction false} RebuildAllFirstError(inputs: seq<Input>, pins: map<string, ResolvedPin>, pinCommit: bool, naming: Naming, k: nat)
    requires k < |inputs| && InputFilename(inputs[k], naming).Err?
    requires forall j :: 0 <= j < k ==> InputFilename(inputs[j], naming).Ok?
    ensures RebuildAll(inputs, pins, pinCommit, naming) == Err(InputFilename(inputs[k], naming).error)
  {
    if k > 0 {
      assert forall j :: 0 <= j < k - 1 ==> inputs[1..][j] == inputs[j + 1];
      RebuildAllFirstError(inputs[1..], pins, pinCommit, naming, k - 1);
    }
  }

  /** One quoted line of the array. */
  function EntryLine(input: Input): string {
    "    \"" + InputString(input) + "\""
  }

  /** The quoted lines of the entries, in order. */
  function EntryLines(inputs: seq<Input>): (r: seq<string>)
    ensures |r| == |inputs|
  {
    if inputs == [] then [] else [EntryLine(inputs[0])] + EntryLines(inputs[1..])
  }

  /** Entry `k` has line `k`. */
  lemma {:induction false} EntryLineAt(inputs: seq<Input>, k: nat)
    requires k < |inputs|
    ensures EntryLines(inputs)[k] == EntryLine(inputs[k])
    decreases k
  {
    if k > 0 {
      var rest := inputs[1..];
      EntryLineAt(rest, k - 1);
      assert rest[k - 1] == inputs[k];
    }
  }

  /** Each entry has its own line, in order. */
  lemma EntryLinesAt(inputs: seq<Input>)
    ensures forall k :: 0 <= k < |inputs| ==> EntryLines(inputs)[k] == EntryLine(inputs[k])
  {
    forall k | 0 <= k < |inputs|
      ensures EntryLines(inputs)[k] == EntryLine(inputs[k])
    {
      EntryLineAt(inputs, k);
    }
  }

  /** One more entry adds its line at the end. */
  lemma {:induction false} EntryLinesSnoc(inputs: seq<Input>, entry: Input)
    ensures EntryLines(inputs + [entry]) == EntryLines(inputs) + [EntryLine(entry)]
  {
    if inputs == [] {
      assert [] + [entry] == [entry];
    } else {
      assert (inputs + [entry])[1..] == inputs[1..] + [entry];
      EntryLinesSnoc(inputs[1..], entry);
      assert [EntryLine(inputs[0])] + (EntryLines(inputs[1..]) + [EntryLine(entry)])
          == ([EntryLine(inputs[0])] + EntryLines(inputs[1..])) + [EntryLine(entry)];
    }
  }

  /** The array as written: `source=(`, one quoted line per entry in order, `)`. */
  function ArrayLines(inputs: seq<Input>): (r: seq<string>)
    ensures |r| == |inputs| + 2
    ensures r[0] == "source=(" && r[|r| - 1] == ")"
    ensures forall k :: 0 <= k < |inputs| ==> r[k + 1] == EntryLine(inputs[k])
  {
    EntryLinesAt(inputs);
    Bracketed("source=(", EntryLines(inputs), ")");
    ["source=("] + EntryLines(inputs) + [")"]
  }

  /** Where the lines of `body` sit once an opening and a closing line surround them. */
  lemma Bracketed(first: string, body: seq<string>, last: string)
    ensures var r := [first] + body + [last];
      && |r| == |body| + 2 && r[0] == first && r[|r| - 1] == last
      && forall k :: 0 <= k < |body| ==> r[k + 1] == body[k]
  {
  }

  /** Overwriting one entry of the array with its pinned form, through `source_mut`. */
  method RepinInPlace(sources: array<Input>, k: nat, pin: ResolvedPin, pinCommit: bool)
    requires k < sources.Length
    modifies sources
    ensures sources[..] == old(sources[..])[k := Repin(old(sources[k]), pin, pinCommit)]
  {
    sources[k] := WithSource(sources[k], pin.source);
    match InnerSource(sources[k])
    case Git(git) =>
      if pinCommit {
        sources[k] := WithSource(sources[k], Git(git.(tag := None, commit := Some(pin.commitHash))));
      } else {
        sources[k] := WithSource(sources[k], Git(git.(tag := Some(pin.tagHash))));
      }
    case _ =>
  }

  /** Rebuilding one more entry extends the rebuilt prefix by that entry. */
  lemma {:induction false} RebuildAllSnoc(inputs: seq<Input>, k: nat, pins: map<string, ResolvedPin>, pinCommit: bool, naming: Naming)
    requires k < |inputs| && RebuildAll(inputs[..k], pins, pinCommit, naming).Ok?
    requires InputFilename(inputs[k], naming).Ok?
    ensures RebuildAll(inputs[..k + 1], pins, pinCommit, naming)
         == Ok(RebuildAll(inputs[..k], pins, pinCommit, naming).value + [RebuildEntry(inputs[k], pins, pinCommit, naming).value])
  {
    if k == 0 {
      var e := RebuildEntry(inputs[0], pins, pinCommit, naming).value;
      assert inputs[..0] == [] && inputs[..1] == [inputs[0]] && inputs[..1][1..] == [];
      assert RebuildAll(inputs[..1], pins, pinCommit, naming) == Ok([e] + []);
      assert [e] + [] == [] + [e];
    } else {
      assert inputs[..k + 1][1..] == inputs[1..][..k];
      assert inputs[..k][1..] == inputs[1..][..k - 1];
      RebuildAllSnoc(inputs[1..], k - 1, pins, pinCommit, naming);
      var head := RebuildEntry(inputs[0], pins, pinCommit, naming).value;
      var done := RebuildAll(inputs[1..][..k - 1], pins, pinCommit, naming).value;
      var next := RebuildEntry(inputs[k], pins, pinCommit, naming).value;
      assert [head] + (done + [next]) == ([head] + done) + [next];
    }
  }

  /** The first entry without a filename after a rebuilt prefix fails the whole rebuild. */
  lemma RebuildAllErrAt(inputs: seq<Input>, k: nat, pins: map<string, ResolvedPin>, pinCommit: bool, naming: Naming)
    requires k < |inputs| && RebuildAll(inputs[..k], pins, pinCommit, naming).Ok?
    requires InputFilename(inputs[k], naming).Err?
    ensures RebuildAll(inputs, pins, pinCommit, naming) == Err(InputFilename(inputs[k], naming).error)
  {
    assert forall j :: 0 <= j < k ==> inputs[..k][j] == inputs[j];
    RebuildAllFirstError(inputs, pins, pinCommit, naming, k);
  }

  /** One turn of the array loop before printing: check if the entry is one of the
      repositories a pin was resolved for, and if so repin it in place. */
  method RebuildInPlace(sources: array<Input>, k: nat, pins: map<string, ResolvedPin>, pinCommit: bool, naming: Naming)
    returns (filename: Result<string>)
    requires k < sources.Length
    modifies sources
    ensures filename == InputFilename(old(sources[k]), naming)
    ensures filename.Err? ==> sources[..] == old(sources[..])
    ensures filename.Ok? ==>
      sources[..] == old(sources[..])[k := RebuildEntry(old(sources[k]), pins, pinCommit, naming).value]
  {
    filename := InputFilename(sources[k], naming);
    if filename.Ok? && filename.value in pins {
      RepinInPlace(sources, k, pins[filename.value], pinCommit);
    }
  }

  /** The text of the array written so far: the opening line and the entries in order. */
  function OpenArray(done: seq<Input>): string {
    Unlines(["source=("] + EntryLines(done))
  }

  lemma EmitEntry(done: seq<Input>, entry: Input)
    ensures OpenArray(done + [entry]) == OpenArray(done) + EntryLine(entry) + "\n"
  {
    EntryLinesSnoc(done, entry);
    assert ["source=("] + EntryLines(done + [entry]) == (["source=("] + EntryLines(done)) + [EntryLine(entry)];
    UnlinesAppend(["source=("] + EntryLines(done), [EntryLine(entry)]);
    UnlinesOne(EntryLine(entry));
  }

  lemma CloseArray(done: seq<Input>)
    ensures Unlines(ArrayLines(done)) == OpenArray(done) + ")" + "\n"
  {
    UnlinesAppend(["source=("] + EntryLines(done), [")"]);
    UnlinesOne(")");
  }

  /** One turn of the array loop: entry `k` is rebuilt in place and its line written
      after the text so far; the rebuilt prefix grows by one entry. */
  method WriteEntry(sources: array<Input>, k: nat, pins: map<string, ResolvedPin>, pinCommit: bool, naming: Naming,
                    ghost original: seq<Input>, out: string) returns (r: Result<string>)
    requires k < sources.Length == |original|
    requires RebuildAll(original[..k], pins, pinCommit, naming) == Ok(sources[..k])
    requires sources[k..] == original[k..]
    requires out == OpenArray(sources[..k])
    modifies sources
    ensures r.Err? ==> RebuildAll(original, pins, pinCommit, naming).Err?
    ensures r.Err? ==> r == Err(RebuildAll(original, pins, pinCommit, naming).error)
    ensures r.Ok? ==> RebuildAll(original[..k + 1], pins, pinCommit, naming) == Ok(sources[..k + 1])
    ensures r.Ok? ==> sources[k + 1..] == original[k + 1..]
    ensures r.Ok? ==> r.value == OpenArray(sources[..k + 1])
  {
    assert sources[k] == sources[k..][0] == original[k];
    ghost var done := sources[..k];
    var filename := RebuildInPlace(sources, k, pins, pinCommit, naming);
    if filename.Err? {
      RebuildAllErrAt(original, k, pins, pinCommit, naming);
      return Err(filename.error);
    }
    assert sources[..k] == done && sources[k + 1..] == original[k + 1..];
    assert sources[..k + 1] == done + [sources[k]];
    RebuildAllSnoc(original, k, pins, pinCommit, naming);
    EmitEntry(done, sources[k]);
    r := Ok(out + EntryLine(sources[k]) + "\n");
  }

  /** Writing the new array: each entry of `sources` is rebuilt in place and printed. */
  method WriteSourceArray(sources: array<Input>, pins: map<string, ResolvedPin>, pinCommit: bool, naming: Naming)
    returns (r: Result<string>)
    modifies sources
    ensures RebuildAll(old(sources[..]), pins, pinCommit, naming).Err? ==>
      r == Err(RebuildAll(old(sources[..]), pins, pinCommit, naming).error)
    ensures RebuildAll(old(sources[..]), pins, pinCommit, naming).Ok? ==>
      sources[..] == RebuildAll(old(sources[..]), pins, pinCommit, naming).value &&
      r == Ok(Unlines(ArrayLines(sources[..])))
  {
    ghost var original := sources[..];
    var out := "source=(" + "\n";
    assert original[..0] == [] && sources[..0] == [];
    UnlinesOne("source=(");
    assert ["source=("] + EntryLines([]) == ["source=("];
    for k := 0 to sources.Length
      invariant RebuildAll(original[..k], pins, pinCommit, naming) == Ok(sources[..k])
      invariant sources[k..] == original[k..]
      invariant out == OpenArray(sources[..k])
    {
      var written := WriteEntry(sources, k, pins, pinCommit, naming, original, out);
      if written.Err? {
        return Err(written.error);
      }
      out := written.value;
    }
    assert sources[..sources.Length] == sources[..] && original[..sources.Length] == original;
    CloseArray(sources[..]);
    out := out + ")" + "\n";
    r := Ok(out);
  }

  // ---------------------------------------------------------------------------
  // Rewriting the manifest (src/main.rs:59-114)

  predicate IsCommitLine(line: string) { StartsWith(line, "_commit") }
  predicate IsTagLine(line: string) { StartsWith(line, "_tag") }
  predicate IsSourceLine(line: string) { StartsWith(line, "source=") }

  /** A line the rewrite copies unchanged. */
  predicate Verbatim(line: string) {
    !IsCommitLine(line) && !IsTagLine(line) && !IsSourceLine(line)
  }

  /** What remains after skipping the original array: everything after the first line
      that ends in `)`, or nothing when no line does (`SkipArrayBlock`,
      `SkipArrayUnterminated`). */
  function SkipArray(lines: seq<string>): (r: seq<string>)
    ensures |r| <= |lines| && r == lines[|lines| - |r|..]
  {
    if lines == [] then []
    else if EndsWith(lines[0], ")") then lines[1..]
    else SkipArray(lines[1..])
  }

  /** The text written so far and the entries the array then holds. */
  datatype Rewrite = Rewrite(out: seq<string>, sources: seq<Input>)

  /** The lines of `written` ahead of those of a rewrite; an error stays. */
  function Prepend(written: seq<string>, r: Result<Rewrite>): Result<Rewrite> {
    match r
    case Err(e) => Err(e)
    case Ok(w) => Ok(Rewrite(written + w.out, w.sources))
  }

  lemma PrependPrepend(a: seq<string>, b: seq<string>, r: Result<Rewrite>)
    ensures Prepend(a, Prepend(b, r)) == Prepend(a + b, r)
  {
    if r.Ok? {
      assert a + (b + r.value.out) == (a + b) + r.value.out;
    }
  }

  /** One turn of the line loop on the first remaining line: how many lines it
      consumes, the lines it writes, and the entries the array holds afterwards.
      `_commit` and `_tag` lines take the hashes of `first`, a `source=` line is
      replaced by the rebuilt array and the original array after it is skipped, any
      other line is copied. */
  datatype Turn = Turn(consumed: nat, written: seq<string>, sources: seq<Input>)

  function LineStep(lines: seq<string>, first: Option<ResolvedPin>, pins: map<string, ResolvedPin>,
                    pinCommit: bool, naming: Naming, sources: seq<Input>): (r: Result<Turn>)
    requires lines != []
    ensures r.Ok? ==> 1 <= r.value.consumed <= |lines|
  {
    var line := lines[0];
    if IsCommitLine(line) then
      if first.None? then Err(CommitWithoutPins) else Ok(Turn(1, ["_commit=" + first.value.commitHash], sources))
    else if IsTagLine(line) then
      if first.None? then Err(TagWithoutPins) else Ok(Turn(1, ["_tag=" + first.value.tagHash], sources))
    else if IsSourceLine(line) then
      var rebuilt := RebuildAll(sources, pins, pinCommit, naming);
      if rebuilt.Err? then Err(rebuilt.error)
      else Ok(Turn(|lines| - |SkipArray(lines[1..])|, ArrayLines(rebuilt.value), rebuilt.value))
    else Ok(Turn(1, [line], sources))
  }

  /** The lines written for the manifest lines: the turns of the loop one after the
      other, stopping at the first failure. */
  function Rewritten(lines: seq<string>, first: Option<ResolvedPin>, pins: map<string, ResolvedPin>,
                     pinCommit: bool, naming: Naming, sources: seq<Input>): Result<Rewrite>
    decreases |lines|
  {
    if lines == [] then Ok(Rewrite([], sources))
    else
      match LineStep(lines, first, pins, pinCommit, naming, sources)
      case Err(e) => Err(e)
      case Ok(turn) => Prepend(turn.written, Rewritten(lines[turn.consumed..], first, pins, pinCommit, naming, turn.sources))
  }

  /** The text of a rewrite: every written line followed by a newline. */
  function Render(w: Result<Rewrite>): Result<string> {
    match w
    case Err(e) => Err(e)
    case Ok(x) => Ok(Unlines(x.out))
  }

  /** The inner loop that skips the original array: consume lines up to and including
      the first one ending in `)`. */
  method SkipOriginalArray(lines: seq<string>, from: nat) returns (next: nat)
    requires from <= |lines|
    ensures from <= next <= |lines| && lines[next..] == SkipArray(lines[from..])
  {
    next := from;
    while next < |lines|
      invariant from <= next <= |lines|
      invariant SkipArray(lines[from..]) == SkipArray(lines[next..])
      decreases |lines| - next
    {
      var line := lines[next];
      SkipArrayStep(lines, next);
      next := next + 1;
      if EndsWith(line, ")") {
        break;
      }
    }
    assert next == |lines| ==> lines[next..] == [];
  }

  /** One line of the skip: a line ending in `)` ends it, any other is passed over. */
  lemma SkipArrayStep(lines: seq<string>, i: nat)
    requires i < |lines|
    ensures EndsWith(lines[i], ")") ==> SkipArray(lines[i..]) == lines[i + 1..]
    ensures !EndsWith(lines[i], ")") ==> SkipArray(lines[i..]) == SkipArray(lines[i + 1..])
  {
    assert lines[i..][0] == lines[i] && lines[i..][1..] == lines[i + 1..];
  }

  /** The `source=` branch of the line loop: skip the original array, then write the
      rebuilt one. */
  method ReplaceSourceArray(lines: seq<string>, from: nat, pins: map<string, ResolvedPin>,
                            sources: array<Input>, pinCommit: bool, naming: Naming) returns (next: nat, r: Result<string>)
    requires from <= |lines|
    modifies sources
    ensures from <= next <= |lines| && lines[next..] == SkipArray(lines[from..])
    ensures RebuildAll(old(sources[..]), pins, pinCommit, naming).Err? ==>
      r == Err(RebuildAll(old(sources[..]), pins, pinCommit, naming).error)
    ensures RebuildAll(old(sources[..]), pins, pinCommit, naming).Ok? ==>
      sources[..] == RebuildAll(old(sources[..]), pins, pinCommit, naming).value &&
      r == Ok(Unlines(ArrayLines(sources[..])))
  {
    // skip original source array
    next := SkipOriginalArray(lines, from);
    // write new source array
    r := WriteSourceArray(sources, pins, pinCommit, naming);
  }

  /** One turn of the line loop of `main`: the text written for `lines[i]` and the
      index of the next line to read. */
  method RewriteLine(lines: seq<string>, i: nat, first: Option<ResolvedPin>, pins: map<string, ResolvedPin>,
                     sources: array<Input>, pinCommit: bool, naming: Naming) returns (next: nat, r: Result<string>)
    requires i < |lines|
    modifies sources
    ensures var turn := LineStep(lines[i..], first, pins, pinCommit, naming, old(sources[..]));
      && (turn.Err? ==> r == Err(turn.error))
      && (turn.Ok? ==> next == i + turn.value.consumed && r == Ok(Unlines(turn.value.written))
                       && sources[..] == turn.value.sources)
  {
    var line := lines[i];
    assert lines[i..][0] == line && lines[i..][1..] == lines[i + 1..];
    next := i + 1;
    if IsCommitLine(line) {
      if first.None? {
        return next, Err(CommitWithoutPins);
      }
      UnlinesOne("_commit=" + first.value.commitHash);
      r := Ok("_commit=" + first.value.commitHash + "\n");
    } else if IsTagLine(line) {
      if first.None? {
        return next, Err(TagWithoutPins);
      }
      UnlinesOne("_tag=" + first.value.tagHash);
      r := Ok("_tag=" + first.value.tagHash + "\n");
    } else if IsSourceLine(line) {
      next, r := ReplaceSourceArray(lines, next, pins, sources, pinCommit, naming);
    } else {
      UnlinesOne(line);
      r := Ok(line + "\n");
    }
  }

  /** The line loop of `main`, writing into a string and rebuilding `sources` in place. */
  method RewriteManifest(lines: seq<string>, first: Option<ResolvedPin>, pins: map<string, ResolvedPin>,
                         sources: array<Input>, pinCommit: bool, naming: Naming) returns (r: Result<string>)
    modifies sources
    ensures r == Render(Rewritten(lines, first, pins, pinCommit, naming, old(sources[..])))
    ensures r.Ok? ==> sources[..] == Rewritten(lines, first, pins, pinCommit, naming, old(sources[..])).value.sources
  {
    ghost var goal := Rewritten(lines, first, pins, pinCommit, naming, sources[..]);
    var out := "";
    ghost var written: seq<string> := [];
    var i := 0;
    assert lines[i..] == lines;
    PrependNil(goal);
    while i < |lines|
      invariant 0 <= i <= |lines|
      invariant out == Unlines(written)
      invariant Prepend(written, Rewritten(lines[i..], first, pins, pinCommit, naming, sources[..])) == goal
      decreases |lines| - i
    {
      ghost var here := i;
      ghost var before := sources[..];
      var text;
      i, text := RewriteLine(lines, i, first, pins, sources, pinCommit, naming);
      if text.Err? {
        return Err(text.error);
      }
      ghost var turn := LineStep(lines[here..], first, pins, pinCommit, naming, before).value;
      assert lines[here..][turn.consumed..] == lines[i..];
      AdvanceBlock(written, turn.written, Rewritten(lines[i..], first, pins, pinCommit, naming, sources[..]), goal);
      out := out + text.value;
      written := written + turn.written;
    }
    assert lines[i..] == [] && written + [] == written;
    r := Ok(out);
  }

  /** Writing a block of lines keeps the loop invariant. */
  lemma AdvanceBlock(written: seq<string>, block: seq<string>, rest: Result<Rewrite>, goal: Result<Rewrite>)
    requires Prepend(written, Prepend(block, rest)) == goal
    ensures Prepend(written + block, rest) == goal
    ensures Unlines(written + block) == Unlines(written) + Unlines(block)
  {
    PrependPrepend(written, block, rest);
    UnlinesAppend(written, block);
  }

  // ---------------------------------------------------------------------------
  // What the rewrite does to the lines of a manifest

  lemma PrependNil(r: Result<Rewrite>)
    ensures Prepend([], r) == r
  {
    if r.Ok? {
      assert [] + r.value.out == r.value.out;
    }
  }

  /** Lines that are not `_commit`, `_tag` or `source=` lines are copied in order and
      leave the array alone. */
  lemma {:induction false} RewrittenConcat(prefix: seq<string>, rest: seq<string>, first: Option<ResolvedPin>,
                                           pins: map<string, ResolvedPin>, pinCommit: bool, naming: Naming, sources: seq<Input>)
    requires forall k :: 0 <= k < |prefix| ==> Verbatim(prefix[k])
    ensures Rewritten(prefix + rest, first, pins, pinCommit, naming, sources)
         == Prepend(prefix, Rewritten(rest, first, pins, pinCommit, naming, sources))
  {
    if prefix == [] {
      assert prefix + rest == rest;
      PrependNil(Rewritten(rest, first, pins, pinCommit, naming, sources));
    } else {
      var lines := prefix + rest;
      assert lines[0] == prefix[0] && lines[1..] == prefix[1..] + rest;
      RewrittenConcat(prefix[1..], rest, first, pins, pinCommit, naming, sources);
      PrependPrepend([prefix[0]], prefix[1..], Rewritten(rest, first, pins, pinCommit, naming, sources));
      assert [prefix[0]] + prefix[1..] == prefix;
    }
  }

  /** A manifest without such lines is written back unchanged. */
  lemma RewrittenVerbatim(lines: seq<string>, first: Option<ResolvedPin>, pins: map<string, ResolvedPin>,
                          pinCommit: bool, naming: Naming, sources: seq<Input>)
    requires forall k :: 0 <= k < |lines| ==> Verbatim(lines[k])
    ensures Rewritten(lines, first, pins, pinCommit, naming, sources) == Ok(Rewrite(lines, sources))
  {
    RewrittenConcat(lines, [], first, pins, pinCommit, naming, sources);
    assert lines + [] == lines;
  }

  /** A `_commit` line becomes `_commit=` and the chosen pin's commit hash; without a
      pin the rewrite fails. */
  lemma RewrittenCommitLine(prefix: seq<string>, line: string, rest: seq<string>, first: Option<ResolvedPin>,
                            pins: map<string, ResolvedPin>, pinCommit: bool, naming: Naming, sources: seq<Input>)
    requires forall k :: 0 <= k < |prefix| ==> Verbatim(prefix[k])
    requires IsCommitLine(line)
    ensures first.None? ==> Rewritten(prefix + [line] + rest, first, pins, pinCommit, naming, sources) == Err(CommitWithoutPins)
    ensures first.Some? ==>
      Rewritten(prefix + [line] + rest, first, pins, pinCommit, naming, sources)
      == Prepend(prefix + ["_commit=" + first.value.commitHash], Rewritten(rest, first, pins, pinCommit, naming, sources))
  {
    assert prefix + [line] + rest == prefix + ([line] + rest);
    RewrittenConcat(prefix, [line] + rest, first, pins, pinCommit, naming, sources);
    assert ([line] + rest)[1..] == rest;
    if first.Some? {
      PrependPrepend(prefix, ["_commit=" + first.value.commitHash], Rewritten(rest, first, pins, pinCommit, naming, sources));
    }
  }

  /** A `_tag` line becomes `_tag=` and the chosen pin's tag object hash; without a pin
      the rewrite fails. */
  lemma RewrittenTagLine(prefix: seq<string>, line: string, rest: seq<string>, first: Option<ResolvedPin>,
                         pins: map<string, ResolvedPin>, pinCommit: bool, naming: Naming, sources: seq<Input>)
    requires forall k :: 0 <= k < |prefix| ==> Verbatim(prefix[k])
    requires IsTagLine(line)
    ensures first.None? ==> Rewritten(prefix + [line] + rest, first, pins, pinCommit, naming, sources) == Err(TagWithoutPins)
    ensures first.Some? ==>
      Rewritten(prefix + [line] + rest, first, pins, pinCommit, naming, sources)
      == Prepend(prefix + ["_tag=" + first.value.tagHash], Rewritten(rest, first, pins, pinCommit, naming, sources))
  {
    assert prefix + [line] + rest == prefix + ([line] + rest);
    RewrittenConcat(prefix, [line] + rest, first, pins, pinCommit, naming, sources);
    assert ([line] + rest)[1..] == rest;
    assert !IsCommitLine(line) by {
      assert line[0] == '_' && line[1] == 't';
    }
    if first.Some? {
      PrependPrepend(prefix, ["_tag=" + first.value.tagHash], Rewritten(rest, first, pins, pinCommit, naming, sources));
    }
  }

  /** Skipping stops right after the first line that ends in `)`. */
  lemma {:induction false} SkipArrayBlock(body: seq<string>, close: string, rest: seq<string>)
    requires forall k :: 0 <= k < |body| ==> !EndsWith(body[k], ")")
    requires EndsWith(close, ")")
    ensures SkipArray(body + [close] + rest) == rest
  {
    var lines := body + [close] + rest;
    if body == [] {
      assert lines[0] == close && lines[1..] == rest;
    } else {
      assert lines[0] == body[0] && lines[1..] == body[1..] + [close] + rest;
      SkipArrayBlock(body[1..], close, rest);
    }
  }

  /** A `source=` line (which is neither a `_commit` nor a `_tag` line) starts the
      array replacement. */
  lemma RewrittenSourceHead(head: string, tail: seq<string>, first: Option<ResolvedPin>, pins: map<string, ResolvedPin>,
                            pinCommit: bool, naming: Naming, sources: seq<Input>)
    requires IsSourceLine(head)
    ensures var rebuilt := RebuildAll(sources, pins, pinCommit, naming);
      Rewritten([head] + tail, first, pins, pinCommit, naming, sources)
      == if rebuilt.Err? then Err(rebuilt.error)
         else Prepend(ArrayLines(rebuilt.value), Rewritten(SkipArray(tail), first, pins, pinCommit, naming, rebuilt.value))
  {
    var lines := [head] + tail;
    assert lines[0] == head && lines[1..] == tail;
    assert !IsCommitLine(head) && !IsTagLine(head) by {
      assert head[0] == 's';
    }
    var rebuilt := RebuildAll(sources, pins, pinCommit, naming);
    if rebuilt.Ok? {
      var rest := SkipArray(tail);
      var consumed := |lines| - |rest|;
      assert LineStep(lines, first, pins, pinCommit, naming, sources)
          == Ok(Turn(consumed, ArrayLines(rebuilt.value), rebuilt.value));
      assert lines[consumed..] == rest by {
        assert lines[consumed..] == tail[|tail| - |rest|..];
      }
    }
  }

  /** Without a line ending in `)`, skipping consumes everything. */
  lemma {:induction false} SkipArrayUnterminated(body: seq<string>)
    requires forall k :: 0 <= k < |body| ==> !EndsWith(body[k], ")")
    ensures SkipArray(body) == []
  {
    if body != [] {
      assert forall k :: 0 <= k < |body| - 1 ==> body[1..][k] == body[k + 1];
      SkipArrayUnterminated(body[1..]);
    }
  }

  /** A `source=` line and the original array after it, up to the first line ending in
      `)`, are replaced by the rebuilt array; from then on the rebuilt entries are the
      array. The `source=` line itself may already end in `)`: the line after it is
      skipped all the same. */
  lemma RewrittenSourceBlock(prefix: seq<string>, head: string, body: seq<string>, close: string, rest: seq<string>,
                             first: Option<ResolvedPin>, pins: map<string, ResolvedPin>, pinCommit: bool,
                             naming: Naming, sources: seq<Input>)
    requires forall k :: 0 <= k < |prefix| ==> Verbatim(prefix[k])
    requires IsSourceLine(head)
    requires forall k :: 0 <= k < |body| ==> !EndsWith(body[k], ")")
    requires EndsWith(close, ")")
    requires RebuildAll(sources, pins, pinCommit, naming).Ok?
    ensures var rebuilt := RebuildAll(sources, pins, pinCommit, naming).value;
      Rewritten(prefix + [head] + body + [close] + rest, first, pins, pinCommit, naming, sources)
      == Prepend(prefix + ArrayLines(rebuilt), Rewritten(rest, first, pins, pinCommit, naming, rebuilt))
  {
    var rebuilt := RebuildAll(sources, pins, pinCommit, naming).value;
    var tail := body + [close] + rest;
    assert prefix + [head] + body + [close] + rest == prefix + ([head] + tail);
    RewrittenConcat(prefix, [head] + tail, first, pins, pinCommit, naming, sources);
    RewrittenSourceHead(head, tail, first, pins, pinCommit, naming, sources);
    SkipArrayBlock(body, close, rest);
    PrependPrepend(prefix, ArrayLines(rebuilt), Rewritten(rest, first, pins, pinCommit, naming, rebuilt));
  }

  /** An array that is never closed swallows the rest of the manifest. */
  lemma RewrittenUnterminatedBlock(prefix: seq<string>, head: string, body: seq<string>,
                                   first: Option<ResolvedPin>, pins: map<string, ResolvedPin>, pinCommit: bool,
                                   naming: Naming, sources: seq<Input>)
    requires forall k :: 0 <= k < |prefix| ==> Verbatim(prefix[k])
    requires IsSourceLine(head)
    requires forall k :: 0 <= k < |body| ==> !EndsWith(body[k], ")")
    requires RebuildAll(sources, pins, pinCommit, naming).Ok?
    ensures var rebuilt := RebuildAll(sources, pins, pinCommit, naming).value;
      Rewritten(prefix + [head] + body, first, pins, pinCommit, naming, sources)
      == Ok(Rewrite(prefix + ArrayLines(rebuilt), rebuilt))
  {
    var rebuilt := RebuildAll(sources, pins, pinCommit, naming).value;
    assert prefix + [head] + body == prefix + ([head] + body);
    RewrittenConcat(prefix, [head] + body, first, pins, pinCommit, naming, sources);
    RewrittenSourceHead(head, body, first, pins, pinCommit, naming, sources);
    SkipArrayUnterminated(body);
    var block := ArrayLines(rebuilt);
    assert Rewritten([], first, pins, pinCommit, naming, rebuilt) == Ok(Rewrite([], rebuilt));
    assert Prepend(block, Ok(Rewrite([], rebuilt))) == Ok(Rewrite(block, rebuilt)) by {
      assert block + [] == block;
    }
  }

  /** A `source=` line fails the rewrite when some entry has no filename. */
  lemma RewrittenSourceError(prefix: seq<string>, head: string, rest: seq<string>,
                             first: Option<ResolvedPin>, pins: map<string, ResolvedPin>, pinCommit: bool,
                             naming: Naming, sources: seq<Input>)
    requires forall k :: 0 <= k < |prefix| ==> Verbatim(prefix[k])
    requires IsSourceLine(head)
    requires RebuildAll(sources, pins, pinCommit, naming).Err?
    ensures Rewritten(prefix + [head] + rest, first, pins, pinCommit, naming, sources)
         == Err(RebuildAll(sources, pins, pinCommit, naming).error)
  {
    assert prefix + [head] + rest == prefix + ([head] + rest);
    RewrittenConcat(prefix, [head] + rest, first, pins, pinCommit, naming, sources);
    RewrittenSourceHead(head, rest, first, pins, pinCommit, naming, sources);
  }

  /** The errors that deriving a filename can raise. */
  predicate FilenameError(e: Error) {
    e.MissingFilename? || e.UrlWithoutFilename? || e.EmptyFilename?
  }

  lemma {:induction false} RebuildAllErrors(inputs: seq<Input>, pins: map<string, ResolvedPin>, pinCommit: bool, naming: Naming)
    ensures RebuildAll(inputs, pins, pinCommit, naming).Err? ==> FilenameError(RebuildAll(inputs, pins, pinCommit, naming).error)
  {
    if inputs != [] {
      RebuildAllErrors(inputs[1..], pins, pinCommit, naming);
    }
  }

  /** Once a pin is chosen, the only way the rewrite can fail is an entry of the array
      whose filename cannot be derived: `_commit` and `_tag` lines always find their pin. */
  lemma {:induction false} RewrittenWithPin(lines: seq<string>, pin: ResolvedPin, pins: map<string, ResolvedPin>,
                                            pinCommit: bool, naming: Naming, sources: seq<Input>)
    decreases |lines|
    ensures var r := Rewritten(lines, Some(pin), pins, pinCommit, naming, sources);
      r.Err? ==> FilenameError(r.error)
  {
    if lines != [] {
      RebuildAllErrors(sources, pins, pinCommit, naming);
      var turn := LineStep(lines, Some(pin), pins, pinCommit, naming, sources);
      if turn.Ok? {
        RewrittenWithPin(lines[turn.value.consumed..], pin, pins, pinCommit, naming, turn.value.sources);
      }
    }
  }

  /** A pinned Git entry is written so that reading the manifest back yields the pinned
      entry: commit pinning always, tag pinning when the pin names no commit. */
  lemma RepinnedEntryReadsBack(input: Input, pin: ResolvedPin, pinCommit: bool)
    requires pin.source.Git?
    requires var url := pin.source.git.url;
      Scheme(url).Some? && StartsWith(Scheme(url).value, "git") && Plain(url)
    requires pinCommit ==> Plain(pin.commitHash)
    requires !pinCommit ==> Plain(pin.tagHash) && pin.source.git.commit.None?
    requires input.Url? ==> !Contains(SourceString(InnerSource(Repin(input, pin, pinCommit))), FILENAME_SEP)
    requires input.UrlWithFilename? ==> !Contains(input.name, FILENAME_SEP) && !EndsWith(input.name, ":")
    ensures ParseInput(InputString(Repin(input, pin, pinCommit))) == Ok(Repin(input, pin, pinCommit))
  {
    var r := Repin(input, pin, pinCommit);
    assert SchemeConsistent(InnerSource(r));
    ParseInputDisplay(r);
  }

  // ---------------------------------------------------------------------------
  // The whole program (src/main.rs:28-114)

  /** The result of running the program on the two variable listings and the manifest:
      the first failure in program order, or the rewritten text for some resolved pin
      chosen as the one `_commit` and `_tag` use. */
  ghost predicate Outcome(pinLines: seq<string>, sourceLines: seq<string>, manifest: seq<string>,
                          naming: Naming, repos: Repos, pinCommit: bool, r: Result<string>)
  {
    match ParseInputList(pinLines)
    case Err(e) => r == Err(e)
    case Ok(pins) =>
      if pins == [] then r == Err(NoPinsConfigured)
      else
        match ParseInputList(sourceLines)
        case Err(e) => r == Err(e)
        case Ok(sources) => RunOutcome(pins, sources, manifest, naming, repos, pinCommit, r)
  }

  /** The result once both lists are parsed: the first pin that fails, or the rewrite
      with some resolved pin as the chosen one. */
  ghost predicate RunOutcome(pins: seq<Input>, sources: seq<Input>, manifest: seq<string>,
                             naming: Naming, repos: Repos, pinCommit: bool, r: Result<string>)
  {
    match ResolveAll(pins, naming, repos)
    case Err(e) => r == Err(e)
    case Ok(resolved) =>
      exists name :: name in resolved &&
        r == Render(Rewritten(manifest, Some(resolved[name]), resolved, pinCommit, naming, sources))
  }

  /** `main` from the listing of the pins on: parse the pins, refuse an empty list,
      parse the sources, then resolve and rewrite. */
  method UpdatePins(pinLines: seq<string>, sourceLines: seq<string>, manifest: seq<string>,
                    naming: Naming, repos: Repos, pinCommit: bool) returns (r: Result<string>)
    ensures Outcome(pinLines, sourceLines, manifest, naming, repos, pinCommit, r)
    ensures ParseInputList(pinLines) == Ok([]) ==> r == Err(NoPinsConfigured)
  {
    var vcspins := ParseInputList(pinLines);
    if vcspins.Err? {
      return Err(vcspins.error);
    }
    if |vcspins.value| == 0 {
      return Err(NoPinsConfigured);
    }
    var sources := ParseInputList(sourceLines);
    if sources.Err? {
      return Err(sources.error);
    }
    r := PinAndRewrite(vcspins.value, sources.value, manifest, naming, repos, pinCommit);
  }

  /** Resolve every pin, pick one for `_commit` and `_tag`, rewrite the manifest. */
  method PinAndRewrite(vcspins: seq<Input>, sources: seq<Input>, manifest: seq<string>,
                       naming: Naming, repos: Repos, pinCommit: bool) returns (r: Result<string>)
    requires vcspins != []
    ensures RunOutcome(vcspins, sources, manifest, naming, repos, pinCommit, r)
  {
    var resolvedPins := ResolvePins(vcspins, naming, repos);
    if resolvedPins.Err? {
      return Err(resolvedPins.error);
    }
    var pins := resolvedPins.value;
    assert ResolvePin(vcspins[0], naming, repos).value.0 in pins;
    var name :| name in pins;
    var buffer := new Input[|sources|](k requires 0 <= k < |sources| => sources[k]);
    assert buffer[..] == sources;
    r := RewriteManifest(manifest, Some(pins[name]), pins, buffer, pinCommit, naming);
    assert name in pins && r == Render(Rewritten(manifest, Some(pins[name]), pins, pinCommit, naming, sources));
  }

  /** With a single pin there is nothing to choose: the outcome is determined. */
  lemma OnePinDeterminesOutcome(pin: Input, sources: seq<Input>, manifest: seq<string>,
                                naming: Naming, repos: Repos, pinCommit: bool, r: Result<string>)
    requires ResolvePin(pin, naming, repos).Ok?
    requires RunOutcome([pin], sources, manifest, naming, repos, pinCommit, r)
    ensures var (name, resolved) := ResolvePin(pin, naming, repos).value;
      r == Render(Rewritten(manifest, Some(resolved), map[name := resolved], pinCommit, naming, sources))
  {
    assert [pin][..0] == [];
    var (name, resolved) := ResolvePin(pin, naming, repos).value;
    assert ResolveAll([pin], naming, repos).value == map[name := resolved];
  }
}
