# updvcspins in Dafny

updvcspins keeps the version-control sources of an Arch Linux `PKGBUILD` pinned.
The `vcspins=` array names Git sources by tag (`git+https://host/repo.git#tag=v1.0`).
The program looks up each tag in a local clone next to the manifest. It finds the
tag object hash and the commit the tag points to. It then rewrites the manifest:

- a line starting with `_commit` becomes `_commit=<commit hash>`;
- a line starting with `_tag` becomes `_tag=<tag hash>`;
- a line starting with `source=` and the original array after it become a new
  array, one quoted entry per line;
- every other line is copied unchanged.

In the new array, every entry whose filename matches a pin takes that pin's source.
With commit pinning the entry gets `#commit=<commit hash>` and loses its tag. Otherwise
it gets `#tag=<tag hash>`.

The project is split into six modules:

- `Errors` (errors.dfy) holds `Option`, `Result` and one `Error` variant per kind of abort.
- `Strings` (strings.dfy) holds `starts_with`, `ends_with`, `strip_suffix`,
  `split_once` and `rsplit_once` on `seq<char>`, plus facts about where a pattern can occur.
- `Git` (git.dfy) is the `GitSource` codec of `src/git.rs`:
  - `Encode` is its `Display`.
  - `Decode` specifies `FromStr`, and the imperative `FromStr` method is proved against it.
  - It holds the round-trip lemmas.
- `Makepkg` (makepkg.dfy) holds `Input`, `Source` and `ResolvedPin` from `src/makepkg.rs`:
  - filename derivation;
  - `Display` for both;
  - `Source::from_str`;
  - the element-wise list parse.
- `Resolve` (resolve.dfy) is `git::run`, over an oracle for the repository's state.
- `Pins` (pins.dfy) is `main` from the pin listing on:
  - The resolution loop (`ResolvePins`) is proved against `ResolveAll`.
  - The line loop (`RewriteManifest`) works over an `array<Input>` that it rebuilds in
    place, and is proved against `Rewritten`.
  - The lemmas say what the rewrite does to each kind of line.

The environment is given as parameters:

- the listings of `vcspins` and `source` are sequences of lines;
- the manifest is a sequence of lines;
- the path and URL libraries form a `Naming` pair of functions;
- the repositories form a map from pin filename to `RepoState`;
- the `--pin-commit` flag is a boolean.

## Model

| member | source | states |
|---|---|---|
| Strings.StripSuffix | src/git.rs:39-42 | `strip_suffix`: present exactly when the text ends in the suffix, and then the text is the result followed by the suffix |
| Strings.SplitOnce | src/makepkg.rs:116 | `split_once`: absent exactly when the pattern does not occur; otherwise the text is before + pattern + after, with no occurrence starting inside `before` |
| Makepkg.FilenameBeforeSeparator | src/makepkg.rs:169-171 | the filename before the first `::` holds no `::`, does not end in `:`, and the text after it is exactly the URL part |
| Strings.SplitOnceHeadFree | src/makepkg.rs:169 | the text before the first occurrence of a non-empty pattern holds no occurrence of it |
| Strings.RSplitOnce | src/git.rs:44-52 | `rsplit_once`: absent exactly when the pattern does not occur; otherwise the text is before + pattern + after, with no later occurrence and none inside `after` |
| Strings.UnlinesAppend | src/main.rs:62-113 | text built by `writeln!` for two runs of lines is the concatenation of the texts of each run |
| Git.StripSigned | src/git.rs:39-42 | the flag is set exactly when the text ends in `?signed`, and the rest followed by the marker (if set) gives the text back |
| Git.TakeLast | src/git.rs:44-52 | no value exactly when the marker does not occur (text unchanged); otherwise text = rest + marker + value, the value holds no marker and no occurrence starts after `rest` |
| Git.StripSignedFlag | src/git.rs:39-57 | stripping `?signed` from `u[?signed]` gives `u` and the flag back when `u` itself does not end in the marker |
| Git.TakeLastPart | src/git.rs:44-52 | the last-marker split of `y[marker v]` gives `y` and the value back when neither part holds the marker where it would be found |
| Git.FirstStripStage | src/git.rs:39-42 | the first strip of `?signed` takes only the outer marker when the text before it ends in a marker part |
| Git.CommitStage | src/git.rs:44-47 | the `#commit=` split of `url[?signed][#tag=t][#commit=c]` separates exactly the commit part |
| Git.TagStage | src/git.rs:49-52 | the `#tag=` split of `url[?signed][#tag=t]` separates exactly the tag part |
| Git.FromStr | src/git.rs:34-65 | the rebinding sequence of `from_str` (strip `?signed`, last `#commit=`, last `#tag=`, strip `?signed`) never fails and computes `Decode` |
| Git.DecodeReadingOrder | src/git.rs:34-65 | on `url[?signed][#tag=t][#commit=c][?signed]` whose pieces hold no marker `from_str` would find first, decoding recovers url, tag and commit, and `signed` is the OR of the two markers |
| Git.DecodeEncode | src/git.rs:15-65 | round trip: `from_str(to_string(g)) == g` when at most one of commit and tag is set and no field holds a marker |
| Git.DecodeEncodeBothSet | src/git.rs:21-52 | with both commit and tag set, `Display` writes `#commit=` before `#tag=`, so reading back merges the tag part into the commit and loses the tag |
| Resolve.Run | src/git.rs:68-102 | error order of `run`: missing directory, unopenable repository, no tag, then the tag reference; success exactly when `refs/tags/<tag>` exists, has an object id and peels, and then the pin holds the peeled commit, the tag id and the Git source; a missing reference fails with `TagNotFound`, a symbolic one with `NotAnObjectId`, an unpeeled one with `TagNotPeeled` |
| Makepkg.InnerSource | src/makepkg.rs:24-43 | `source`/`take_source`: the input is its variant wrapped around the returned source (with its filename) |
| Makepkg.WithSource | src/makepkg.rs:31-36 | assigning through `source_mut` replaces the inner source and keeps the variant and the explicit filename |
| Makepkg.InputString | src/makepkg.rs:46-53 | `Display for Input`: the source's text, or `file::` followed by it |
| Makepkg.SourceFilename | src/makepkg.rs:67-99 | `Source::filename` is never empty: it succeeds exactly when the path or URL library gives a non-empty name (and returns it), passes the library's error on, and refuses an empty name |
| Makepkg.InputFilename | src/makepkg.rs:17-22 | an explicit filename is returned verbatim, otherwise the source's derived filename |
| Makepkg.GitFilenameIgnoresSuffixes | src/makepkg.rs:76-93 | a Git source's filename is that of a URL source with its url, whatever its commit, tag and signed flag |
| Makepkg.Scheme | src/makepkg.rs:116 | the scheme is absent exactly when the text holds no `://`; otherwise it is the text before the first `://` (the text starts with scheme + `://` and no `://` starts inside the scheme) |
| Makepkg.ParseSource | src/makepkg.rs:112-126 | a file exactly when there is no `://`; `Url` of the whole text exactly when the scheme is `https`, `http` or `ftp`; a Git source exactly when the scheme is another one starting with `git`, and then it is `Decode` of the whole text; an `UnknownScheme` error with that scheme exactly for every other scheme |
| Makepkg.ParseInput | src/makepkg.rs:168-176 | a line without `::` is parsed whole as a bare `Input::Url`; an explicit filename appears exactly when the line holds `::`, and then it is the text before the first `::` (holding none and not ending in `:`) and the rest after that `::` parses to the entry's source; a failure is an unknown scheme |
| Makepkg.ParseInputList | src/makepkg.rs:164-179 | the collect succeeds exactly when every line parses; the result then has one entry per line, in order, each the parse of its line |
| Makepkg.ParseInputListFirstError | src/makepkg.rs:166-177 | a failed collect reports the error of the first line that fails |
| Makepkg.SchemeOfConcat | src/makepkg.rs:116 | text appended after a text that has a scheme does not change the scheme |
| Makepkg.SchemeOfEncode | src/makepkg.rs:102-121 | the scheme of an encoded Git source is that of its url |
| Makepkg.ParseGitDisplay | src/makepkg.rs:102-126 | an encoded Git source with a `git…` scheme and marker-free fields parses back to itself |
| Makepkg.GitSchemeIsNotUrlScheme | src/makepkg.rs:118-121 | a `git…` scheme never takes one of the `https`/`http`/`ftp` branches |
| Makepkg.ParseSourceDisplay | src/makepkg.rs:102-126 | round trip `from_str(to_string(s)) == s` for every source whose text selects its own variant |
| Makepkg.ParseInputSplitsAtFirst | src/makepkg.rs:169-171 | `f::rest` splits after `f` whatever `rest` holds, when `f` has no `::` and does not end in `:` |
| Makepkg.ParseInputDisplay | src/makepkg.rs:46-175 | round trip: an entry written by `Display` parses back to itself when neither the filename nor a bare source can be confused with `::` |
| Pins.ResolvePin | src/main.rs:44-56 | one pin: a filename error is passed on; a file or URL pin is refused with its own error; a Git pin succeeds exactly when `git::run` on the repository named after its filename succeeds, and then yields that filename with `run`'s pin (its hashes and source), otherwise `run`'s error |
| Pins.ResolveOne | src/main.rs:46-55 | the loop body (filename, variant match, `git::run`) computes `ResolvePin` |
| Pins.ResolveAllStep | src/main.rs:44-56 | one more pin inserts its resolved pin under its filename, or stops the loop with its error |
| Pins.ResolveAll | src/main.rs:43-57 | the loop succeeds exactly when every pin resolves, and then every pin's filename is a key |
| Pins.ResolveAllKeys | src/main.rs:43-57 | every key of the map is the filename of some pin |
| Pins.ResolveAllLastWins | src/main.rs:54 | the map holds, under each name, the pin inserted last under that name |
| Pins.ResolveAllFirstError | src/main.rs:44-56 | a failed loop reports the error of the first pin that fails |
| Pins.ResolveAllPrefixError | src/main.rs:44-56 | once a prefix of the pins fails, nothing after it changes the result |
| Pins.ResolvePins | src/main.rs:43-57 | the imperative loop computes `ResolveAll` |
| Pins.Repin | src/main.rs:95-105 | the repinned entry keeps its variant and filename, takes the pin's source, and for Git has tag removed and commit set (commit pinning) or tag set to the tag hash with the commit unchanged |
| Pins.RebuildEntry | src/main.rs:94-106 | a filename error is passed on; an entry whose filename is a key becomes its repinned form with that key's pin; any other entry stays exactly as it was |
| Pins.RebuildAll | src/main.rs:92-109 | the rebuild succeeds exactly when every entry has a filename; it keeps the length and rebuilds each entry in place |
| Pins.RebuildAllFirstError | src/main.rs:94 | a failed rebuild reports the error of the first entry without a filename |
| Pins.RebuildAllSnoc | src/main.rs:92-106 | rebuilding one more entry extends the rebuilt prefix by that entry |
| Pins.RebuildAllErrAt | src/main.rs:94 | an entry without a filename after a rebuilt prefix fails the whole rebuild with its error |
| Pins.RebuildAllErrors | src/main.rs:94 | a rebuild fails only with a filename error |
| Pins.EntryLineAt | src/main.rs:92-108 | entry `k` of the array is written as quoted line `k` |
| Pins.EntryLinesSnoc | src/main.rs:92-108 | one more entry adds its quoted line at the end |
| Pins.ArrayLines | src/main.rs:91-110 | the written array is `source=(`, one quoted line per entry in order, then `)` |
| Pins.RepinInPlace | src/main.rs:96-105 | overwriting one entry through `source_mut` leaves the array with only that entry repinned |
| Pins.RebuildInPlace | src/main.rs:94-106 | one turn of the array loop returns the entry's filename and repins that one entry when its filename is a key, else leaves the array unchanged |
| Pins.EmitEntry | src/main.rs:108 | writing one more entry extends the text of the open array by its quoted line |
| Pins.CloseArray | src/main.rs:110 | closing the array appends `)` |
| Pins.WriteEntry | src/main.rs:93-108 | one turn of the array loop either fails with the whole rebuild's error or grows the rebuilt prefix and its text by one entry |
| Pins.WriteSourceArray | src/main.rs:91-110 | the array loop fails with the rebuild's first error, or leaves the array rebuilt and returns its text |
| Pins.SkipArray | src/main.rs:83-89 | what remains after skipping is a suffix of the lines |
| Pins.SkipOriginalArray | src/main.rs:83-89 | the skip loop stops after the first line ending in `)`, or at the end |
| Pins.SkipArrayStep | src/main.rs:84-88 | skipping from a line ending in `)` stops right after it; from any other line it goes on from the next |
| Pins.SkipArrayBlock | src/main.rs:84-88 | skipping stops right after the first line that ends in `)` |
| Pins.SkipArrayUnterminated | src/main.rs:84-88 | without a line ending in `)`, skipping consumes everything |
| Pins.ReplaceSourceArray | src/main.rs:82-110 | the `source=` branch skips the original array and writes the rebuilt one |
| Pins.LineStep | src/main.rs:68-113 | each turn of the line loop consumes at least one line and no more than remain |
| Pins.PrependPrepend | src/main.rs:62-113 | writing two blocks in turn is writing their concatenation |
| Pins.PrependNil | src/main.rs:62 | writing nothing changes nothing |
| Pins.AdvanceBlock | src/main.rs:64-113 | writing one block keeps the loop's account of the text |
| Pins.RewriteLine | src/main.rs:64-113 | one turn of the line loop writes what `LineStep` says and moves past the lines it consumes |
| Pins.RewriteManifest | src/main.rs:59-114 | the imperative line loop returns `Rewritten` as text and leaves the array as the rewrite leaves it |
| Pins.RewrittenConcat | src/main.rs:111-113 | lines that are not `_commit`, `_tag` or `source=` lines are copied in order ahead of the rest |
| Pins.RewrittenVerbatim | src/main.rs:111-113 | a manifest without such lines is written back unchanged |
| Pins.RewrittenCommitLine | src/main.rs:68-74 | a `_commit` line becomes `_commit=<commit hash>` of the chosen pin; without any pin the rewrite fails |
| Pins.RewrittenTagLine | src/main.rs:75-81 | a `_tag` line becomes `_tag=<tag hash>` of the chosen pin; without any pin the rewrite fails |
| Pins.RewrittenSourceHead | src/main.rs:82-110 | a `source=` line fails with the rebuild's error, or writes the rebuilt array and goes on after the skipped lines with the rebuilt entries |
| Pins.RewrittenSourceBlock | src/main.rs:82-110 | a `source=` line and the original array up to the first line ending in `)` are replaced by the rebuilt array, and later lines see the rebuilt entries |
| Pins.RewrittenUnterminatedBlock | src/main.rs:84-89 | an array that is never closed swallows the rest of the manifest |
| Pins.RewrittenSourceError | src/main.rs:94 | a `source=` line fails the rewrite when an entry has no filename |
| Pins.RewrittenWithPin | src/main.rs:68-110 | once a pin exists, the rewrite fails only with a filename error |
| Pins.RepinnedEntryReadsBack | src/main.rs:95-108 | a repinned Git entry is written so that the list parse reads it back as the repinned entry (commit pinning always; tag pinning when the pin has no commit) |
| Pins.UpdatePins | src/main.rs:28-114 | the program fails with the first error in its order (pin list, empty pin list, source list, pins, rewrite) or returns the rewrite for some resolved pin; an empty pin list is refused |
| Pins.PinAndRewrite | src/main.rs:43-114 | after both lists are parsed: the first failing pin, or the rewrite with one of the resolved pins as the one `_commit` and `_tag` use |
| Pins.OnePinDeterminesOutcome | src/main.rs:69-81 | with a single pin, the `HashMap` choice is forced and the outcome is fully determined |

## Left out

- `exec_sh` and `list_variable` (src/makepkg.rs:135-162) run `bash` on the manifest. The model takes their output, the lines of `vcspins` and `source`, as parameters. Shell failures and invalid UTF-8 output are not modelled.
- `Path::file_name` and the `url` crate are the `Naming` oracle.
  - A missing name and a name that is not UTF-8 both become `MissingFilename`.
  - A URL that does not parse, has no path or has no last segment becomes `UrlWithoutFilename`.
  - The model keeps three separate errors only for the cases it tells apart.
- `git_repository` is the `RepoState` oracle, keyed by pin filename.
  - `folder.join(filename)` and the failure of `pkgbuild.parent()` are not modelled.
  - `RepoDoesNotExist` carries the filename, not the joined path.
- Iteration over a `HashMap` has no defined order. `iter().next()` is modelled as one resolved pin, chosen arbitrarily; the map is not changed during the rewrite, so `_commit` and `_tag` see the same pin. The outcome is existential in the chosen pin, and `OnePinDeterminesOutcome` pins it down for a single pin.
- The rest of `main` is not modelled: the command line, logging, `fs::metadata`, opening and reading the manifest, the dry-run switch, the output path and `fs::write`. The manifest comes in as lines and the program's text comes out as the result.
- A line that fails to decode (`Failed to decode line`) is not modelled, and neither are `\r\n` line endings: lines are given already split.
- Messages of `bail!` and `.context(..)` become `Error` variants without their text.
- Pins.WriteSourceArray does not specify the array after a failed rebuild, because the program then aborts.
- Pins.WriteEntry does not specify the array after a failed rebuild, for the same reason.
- Pins.ReplaceSourceArray does not specify the array after a failed rebuild, because the program then aborts.
- Pins.RewriteLine does not specify the array after a failed rebuild, because the program then aborts.
- Pins.RewriteManifest does not specify the array after a failed rebuild, because the program then aborts.
- Pins.RepinnedEntryReadsBack: tag pinning of a pin that already names a commit is not covered. The written entry then holds both `#commit=` and `#tag=`, and `Git.DecodeEncodeBothSet` shows the tag is read back as part of the commit.
- Git.DecodeEncode requires marker-free fields (`Plain`), because `from_str` cannot tell a marker inside a field from a real one.
