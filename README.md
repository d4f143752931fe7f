# video-splitter decision logic in Dafny

This project models the decision logic of the two ffmpeg driver scripts of
video-splitter.

`ffmpeg-split.py` cuts one video into segments. It has two modes:
- by seconds: `ceildiv`, `split_by_seconds`, and the block of `main` that derives the segment length from an explicit length, a byte target (with the `even` or `eager` strategy) or a chunk count;
- by manifest: `split_by_manifest`, which takes a structured JSON object, a JSON list of entries, or a CSV file.

Either mode produces an ordered list of transcoder cuts `-ss <start> -t <duration> <output>`.

`ffmpeg-merge.py` joins videos:
- `check_videos_compatibility` probes every input in order and compares each one with the first;
- `merge_videos` writes the concat demuxer list (one quoted, escaped line per input) and resolves the output extension.

Layout:

- `wrappers.dfy`: `Option` and `Result`.
- `path_text.dfy` (`PathText`): the Python string and path operations the scripts use, over normalised POSIX paths. These are `str.split(".")` with `".".join`, the `in` substring test, `str(int)`, `os.path.basename`, `os.path.join`, and pathlib `parent`, `stem`, `suffix`, `/` and `absolute()`.
- `segments.dfy` (`Segments`): what both split modes produce.
  - `Scalar` holds a manifest value, with Python truthiness.
  - `Segment` is one cut.
  - `Run` holds the cuts issued and the error that ended the run, if any.
  - Also here: the output path of a cut and the default output directory `<parent>/Clip-<stem>`.
- `segment_planner.dfy` (`SegmentPlanner`): `ceildiv`, `split_by_seconds` and the length resolution of `main`.
- `manifest_interpreter.dfy` (`ManifestInterpreter`): `split_by_manifest`.
- `compatibility_checker.dfy` (`CompatibilityChecker`): `check_videos_compatibility`.
- `concat_list_builder.dfy` (`ConcatListBuilder`): `merge_videos`.

Each loop of the scripts is a method, proved against a specification function:
- `CutSegments` against `SegmentsUpTo`, `SplitBySeconds` against `SecondsRun`;
- `ResolveSplitLength` against `ResolvedLength`;
- `SplitByManifest`, `CollectClips`, `CutEntry` and `CutEntries` against `ManifestRun`, `ClipEntries`, `EntryCut` and `EntriesRun`;
- `CheckVideosCompatibility` against `Compatibility`;
- `MergeVideos` against `ConcatList` and `MergeOutput`.

The lemmas state what the scripts promise about those functions.

The external tools are inputs:
- A probed duration or file size is a `nat`.
- A probe of a merge input is an `Option<Info>` (None when `get_video_info` fails).
- A manifest is given as already parsed: a `JsonManifest` or a sequence of CSV records.
- The success of the final ffmpeg call of a merge is a `bool`.
- The working directory that `absolute()` resolves against is a string parameter.

Every cut of a split is taken to succeed.

Two behaviours of the code worth noting:
- The trivial-split check is `split_count == 1` (ffmpeg-split.py:154), so a count of 0 (a zero-length video) makes no cut and no error.
- A split length of 0 is falsy and passes the check at line 147. It then divides by zero in `ceildiv`.

## Model

| member | source | states |
|---|---|---|
| PathText.AfterLast | ffmpeg-split.py:179-181 | the text after the last occurrence of a character holds no such character and ends the string |
| PathText.LastComponent | ffmpeg-split.py:181 | `s.split(".")[-1]` never contains a dot |
| PathText.SplitJoinRoundTrip | ffmpeg-split.py:180-181 | for a name with a dot, the part before the last dot, a dot and the part after it give the name back |
| PathText.DottedName | ffmpeg-split.py:102-104 | `b + "." + e`, with `e` dot-free, splits back into exactly `b` and `e` |
| PathText.ContainsSuffix | ffmpeg-split.py:103 | `n in x + n`: a text contains each of its suffixes |
| PathText.ContainsShorter | ffmpeg-split.py:103 | a contained text is no longer than the text containing it |
| PathText.NatToString | ffmpeg-split.py:191 | `str(n)` is non-empty, and is one character exactly when n < 10 |
| PathText.NatToStringDigits | ffmpeg-split.py:191 | `str(n)` holds decimal digits only |
| PathText.NatToStringInjective | ffmpeg-split.py:191 | different numbers are written differently |
| PathText.Basename | ffmpeg-split.py:179 | `os.path.basename` has no slash |
| PathText.Stem | ffmpeg-split.py:77 | `Path.stem` has no slash |
| PathText.Parent | ffmpeg-split.py:75 | `Path.parent` is never empty (`.` for a bare name) |
| Segments.OutputPath | ffmpeg-split.py:110 | with no output directory the name is used as is |
| Segments.OutputPathUnder | ffmpeg-split.py:191 | a relative name goes under a directory (not ending in a slash) after one slash |
| Segments.OutputPathInjective | ffmpeg-split.py:191 | different relative names give different output paths in one directory |
| Segments.DefaultOutputDir | ffmpeg-split.py:159-167 | the default output directory is never empty |
| Segments.DefaultOutputDirIsSibling | ffmpeg-split.py:71-79 | the default output directory has the input's parent and is named `Clip-<stem>` |
| SegmentPlanner.CeilDivBounds | ffmpeg-split.py:141-142 | `ceildiv(a, b)` is the ceiling of a / b: `(c-1)*b < a <= c*b` for b > 0, mirrored for b < 0 |
| SegmentPlanner.CeilDivNonNegative | ffmpeg-split.py:153 | the segment count of a non-negative length is non-negative |
| SegmentPlanner.CeilDivPositive | ffmpeg-split.py:153 | a positive length over a positive divisor needs at least one segment |
| SegmentPlanner.CeilDivIsOne | ffmpeg-split.py:153-154 | the count is 1 exactly when 0 < video length <= split length |
| SegmentPlanner.EarlyMultiplesInside | ffmpeg-split.py:141-142 | every multiple of b before the last of the ceildiv(a, b) ones ends strictly below a |
| SegmentPlanner.FileBase | ffmpeg-split.py:179-180 | the file base (basename without its last dot part) has no slash |
| SegmentPlanner.SegmentsUpToAt | ffmpeg-split.py:184-195 | the first n cuts are n in number and cut k is segment k's |
| SegmentPlanner.SegmentsUpToTiming | ffmpeg-split.py:186-193 | cut k starts at `split_length * k` and lasts `split_length` |
| SegmentPlanner.SecondsPlan | ffmpeg-split.py:147-156 | a run that stops with an error has issued no cut |
| SegmentPlanner.CutSegments | ffmpeg-split.py:184-195 | the loop issues exactly the cuts of segments 0..count-1, in order |
| SegmentPlanner.SplitBySeconds | ffmpeg-split.py:145-195 | `split_by_seconds` rejects a negative length, fails on 0, stops on a count of 1, else issues every segment's cut; equal to `SecondsRun` |
| SegmentPlanner.SecondsRunShape | ffmpeg-split.py:153-193 | a successful split of a non-empty video makes `ceildiv(video, length)` cuts, at least two; cut n starts at `length * n` and lasts `length` |
| SegmentPlanner.SecondsRunCovers | ffmpeg-split.py:141-153 | `(count-1)*length < video <= count*length`: only the last cut can run past the end |
| SegmentPlanner.TrivialSplitIffShort | ffmpeg-split.py:153-156 | with a positive length the run stops as trivial exactly when 0 < video <= length |
| SegmentPlanner.EmptyVideoSplitsIntoNothing | ffmpeg-split.py:153-156 | a zero-second video gives count 0: no cut and no error |
| SegmentPlanner.SegmentOutputsDistinct | ffmpeg-split.py:179-191 | cut n is named `<base>-<n+1>-of-<count>.<ext>` under the output directory, and no two cuts share a path |
| SegmentPlanner.SplitOutputsDistinct | ffmpeg-split.py:179-191 | the cuts of any split of a file have pairwise distinct output paths |
| SegmentPlanner.TalkNameParts | ffmpeg-split.py:179-181 | `talk.mp4` has file base `talk` and extension `mp4` |
| SegmentPlanner.ExampleThreeSegments | ffmpeg-split.py:145-195 | 25 s of `talk.mp4` in 10 s pieces: three cuts at 0, 10, 20 to `out/talk-k-of-3.mp4` |
| SegmentPlanner.ExampleTooShort | ffmpeg-split.py:153-156 | 8 s in 10 s pieces stops as trivial before any cut |
| SegmentPlanner.Trunc | ffmpeg-split.py:309 | `int(x)` truncates toward zero: within one of x, never past it |
| SegmentPlanner.ResolvedLength | ffmpeg-split.py:303-317 | the resolved length is never 0; failure is a missing parameter or a division by zero |
| SegmentPlanner.ResolveSplitLength | ffmpeg-split.py:303-317 | the step-by-step option updates of `main` give `ResolvedLength` |
| SegmentPlanner.ExplicitLengthWins | ffmpeg-split.py:304 | an explicit split length is used unchanged |
| SegmentPlanner.ChunksGiveLength | ffmpeg-split.py:312-315 | a given chunk count, not overridden by `even`, gives `ceildiv(video, chunks)` ahead of the eager length |
| SegmentPlanner.EvenOverridesChunks | ffmpeg-split.py:310-311 | under `even` with a byte target, the user's chunk count has no effect |
| SegmentPlanner.CeilDivRoundTrip | ffmpeg-split.py:313 | pieces of `ceildiv(v, c)` seconds number at most c, exactly c when c divides v |
| SegmentPlanner.EvenStrategyMatchesChunks | ffmpeg-split.py:310-313 | under `even` the length is `ceildiv(video, ceildiv(size, target))`, which yields at most that many segments |
| SegmentPlanner.EagerLengthBounds | ffmpeg-split.py:314-315 | the eager length l satisfies `l*size <= target*video < (l+1)*size` |
| SegmentPlanner.EagerStaysWithinTarget | ffmpeg-split.py:314-317 | under `eager` without chunks, the length is the eager one, and a zero result bails out |
| ManifestInterpreter.CollectClips | ffmpeg-split.py:50-61 | the clip loop yields `ClipEntries`: one entry per clip or the first missing key |
| ManifestInterpreter.CutEntry | ffmpeg-split.py:96-113 | the loop body yields `EntryCut`: the entry's cut or why it is rejected |
| ManifestInterpreter.CutEntries | ffmpeg-split.py:95-129 | the entry loop yields `EntriesRun`: cuts up to the first rejected entry |
| ManifestInterpreter.SplitByManifest | ffmpeg-split.py:23-129 | `split_by_manifest` as a whole, equal to `ManifestRun` |
| ManifestInterpreter.ClipEntriesShape | ffmpeg-split.py:50-61 | clips convert exactly when all have start_time and length; then clip k becomes entry `clip-<k>.<ext>` |
| ManifestInterpreter.ClipEntriesFirstMissing | ffmpeg-split.py:56-58 | the first incomplete clip decides, start_time asked before length |
| ManifestInterpreter.StopAtFirstShape | ffmpeg-split.py:95-129 | a run has no error exactly when every outcome is a cut, and then makes those cuts in order |
| ManifestInterpreter.StopAtFirstStopsAt | ffmpeg-split.py:118-129 | the first failure stops the run with its error after the cuts before it |
| ManifestInterpreter.EntriesRunShape | ffmpeg-split.py:95-117 | entries run without error exactly when every entry is accepted, then one cut per entry, in order |
| ManifestInterpreter.EntriesRunStopsAtFirstRejected | ffmpeg-split.py:95-129 | the first rejected entry ends the run with its error; earlier entries' cuts were issued, later ones are not looked at |
| ManifestInterpreter.FormatOnlyNamesTheSchema | ffmpeg-split.py:118-129 | JSON and CSV entries give the same cuts; the format only picks the schema hint |
| ManifestInterpreter.RenameKeepsOneExtension | ffmpeg-split.py:102-104 | `rename_to` of `<b>.<ext>` gives base b: the extension is not doubled |
| ManifestInterpreter.SubstringTestDropsWholeName | ffmpeg-split.py:103-104 | `mp4` in `mp4-intro` is a substring match, so the whole name is dropped |
| ManifestInterpreter.EndTimeIsPassedThrough | ffmpeg-split.py:98-101 | a truthy end_time is the duration as is; otherwise length is, and its absence rejects the entry |
| ManifestInterpreter.ClipEntryCut | ffmpeg-split.py:53-61 | clip k's entry cuts from its start_time for its length into `clip-<k>.<ext>` |
| ManifestInterpreter.CompleteClipsCut | ffmpeg-split.py:50-61 | complete clips convert, and entry i cuts from clip i's start_time for its length into `clip-<i>.<ext>` |
| ManifestInterpreter.StructuredManifestCuts | ffmpeg-split.py:47-61 | a structured manifest with complete clips cuts clip i to `clip-<i>.<ext>`; the given file name takes precedence over input_file |
| ManifestInterpreter.StructuredManifestIncomplete | ffmpeg-split.py:51-58 | one incomplete clip anywhere means no cut at all |
| ManifestInterpreter.ClipOutputsDistinct | ffmpeg-split.py:54 | different clips never share an output path |
| ManifestInterpreter.UnsupportedManifestRejected | ffmpeg-split.py:64-68 | a manifest type other than json or csv stops before any cut |
| CompatibilityChecker.Mismatch | ffmpeg-merge.py:72-79 | a difference is reported as a codec or a resolution mismatch |
| CompatibilityChecker.FirstMismatch | ffmpeg-merge.py:72-79 | the first difference found is a codec or a resolution mismatch |
| CompatibilityChecker.ProbedShape | ffmpeg-merge.py:61-67 | probing succeeds exactly when every probe does, and yields the infos in input order |
| CompatibilityChecker.FirstMismatchNone | ffmpeg-merge.py:72-79 | no mismatch exactly when each video matches the first |
| CompatibilityChecker.CheckVideosCompatibility | ffmpeg-merge.py:56-80 | the two loops of `check_videos_compatibility` give `Compatibility` |
| CompatibilityChecker.CompatibleIff | ffmpeg-merge.py:56-80 | compatible exactly when non-empty, every probe succeeds and all agree with the first on codec, width, height; infos keep input order |
| CompatibilityChecker.EmptyListHasNoVideos | ffmpeg-merge.py:58-59 | an empty list gives "no video files" |
| CompatibilityChecker.FirstProbeFailureNamed | ffmpeg-merge.py:61-67 | the first failed probe in input order names the result |
| CompatibilityChecker.LaterProbesIgnored | ffmpeg-merge.py:61-67 | probes after a failed one cannot change the result |
| CompatibilityChecker.FirstMismatchDecides | ffmpeg-merge.py:72-79 | the first differing video decides; codec before resolution; both values reported |
| CompatibilityChecker.ProbedAlike | ffmpeg-merge.py:61-67 | probe lists that agree on which files probe and on the streams fail at the same file, or both succeed with stream-equal infos |
| CompatibilityChecker.FirstMismatchAlike | ffmpeg-merge.py:72-79 | infos that agree on codec, width and height file by file have the same first mismatch |
| CompatibilityChecker.FormatNotCompared | ffmpeg-merge.py:72-79 | whether the videos are compatible does not depend on format_name; every other verdict is identical, and compatible results agree on the streams file by file |
| ConcatListBuilder.MergeVideos | ffmpeg-merge.py:82-123 | writes `ConcatList` in order, resolves `MergeOutput`, reports the transcoder outcome, and removes the list on both paths |
| ConcatListBuilder.EscapeAppend | ffmpeg-merge.py:91 | escaping works character by character: it distributes over concatenation |
| ConcatListBuilder.EscapeNoQuote | ffmpeg-merge.py:91 | a path without quotes is not changed |
| ConcatListBuilder.EscapeRoundTrip | ffmpeg-merge.py:91 | unescaping gives the path back: no path is lost or altered |
| ConcatListBuilder.EscapeLength | ffmpeg-merge.py:91 | each quote becomes four characters, every other character one |
| ConcatListBuilder.QuoteBetweenEscaped | ffmpeg-merge.py:91 | `x'y` (x, y quote-free, e.g. `/tmp/a` and `b.mp4`) becomes `x'\''y` |
| ConcatListBuilder.ExampleEscape | ffmpeg-merge.py:91 | `a'b` becomes `a'\''b` |
| ConcatListBuilder.LineRoundTrip | ffmpeg-merge.py:92 | each `file '<escaped>'` line reads back to its path |
| ConcatListBuilder.ListNamesEveryInput | ffmpeg-merge.py:86-92 | one line per input, in input order, naming its absolute path |
| ConcatListBuilder.SuffixShape | ffmpeg-merge.py:96 | a non-empty pathlib suffix is a dot and at least one dot-free, slash-free character |
| ConcatListBuilder.BorrowedExtShape | ffmpeg-merge.py:95-98 | the borrowed extension (first input's suffix, else `.mp4`) is suffix-shaped |
| ConcatListBuilder.BasenameOfAppended | ffmpeg-merge.py:103 | appending slash-free text to a path extends its last component |
| ConcatListBuilder.LastDotOfExtended | ffmpeg-merge.py:103 | after appending a suffix-shaped extension to a non-empty name, the last dot is the extension's |
| ConcatListBuilder.SuffixOfAppended | ffmpeg-merge.py:101-103 | appending a suffix-shaped extension to a path with a last component makes it the suffix |
| ConcatListBuilder.OutputWithSuffixKept | ffmpeg-merge.py:101-103 | an output path with a suffix is used unchanged |
| ConcatListBuilder.OutputWithoutSuffixExtended | ffmpeg-merge.py:95-103 | an output path without one gets the borrowed extension, which becomes its suffix |
| ConcatListBuilder.MergeOutputIdempotent | ffmpeg-merge.py:95-103 | resolving the output path twice changes nothing more |

## Left out

- The ffprobe and ffmpeg calls themselves. Probe results and the merge's transcoder outcome are parameters. Every split cut is taken to succeed, so a failing `check_output` (CalledProcessError) is not modelled.
- The command prefix of each cut (`-i <absolute input>`, codecs, `-y`, `shlex.split(extra)`). A cut is only its `-ss`, `-t` and output arguments.
- Filesystem effects: `os.path.exists` of the output directory, `os.makedirs`, `os.stat`, writing and removing `concat_list.txt`. The list is the sequence of its lines. Its removal is a ghost flag.
- `json.load` and `csv.DictReader`. Manifests arrive parsed, with values as `Scalar` (int, float, string or null). JSON booleans, lists and nested objects as values, non-object list items, a top-level JSON scalar or null (a TypeError in the loop at ffmpeg-split.py:95-98), a non-string `input_file` such as null (a failure at line 53 or 87), and decoding errors are not modelled.
- `OptionParser`, the manifest pre-check in `main` (ffmpeg-split.py:283-295), `bailout`, locale setup, and all printing and message text. Errors are datatype values.
- Floating point. `ceildiv` is exact integer ceiling division, where the source goes through `float`. The factor is a `real` and `int()` is truncation toward zero, with no float rounding. Eager length is exact real arithmetic.
- SegmentPlanner.SplitBySeconds: the re-probe when `video_length` is falsy is not modelled; `videoLength` is the duration after any probe.
- Path normalisation by pathlib (repeated slashes, `.` components, trailing slashes). Paths are taken as already normalised POSIX paths.
- ManifestInterpreter.SplitByManifest: an empty-string file name does not raise (`Path("")` is the working directory). As in the source, it gives no default output directory (line 71), and a structured manifest replaces it with `input_file` (line 48). A missing one (None) is the `NoInputFile` error, standing for the exception Python raises on `None`. The file name is not checked for a dot (line 91 never raises).
- ManifestInterpreter.SplitByManifest: a structured clip lacking a key raises a KeyError outside the `try` (lines 57-58). It is modelled as its own error, `MissingClipKey`, distinct from the schema-hint error.
- CompatibilityChecker.CheckVideosCompatibility: lines 69-70 cannot be reached, because every probe succeeded by then; the model asserts this instead.
- ConcatListBuilder.MergeVideos: requires a non-empty list. The source indexes `video_infos[0]`, and its caller only merges after a successful compatibility check.
- ConcatListBuilder.MergeVideos: the transcoder outcome is its exit status, zero or non-zero (the `CalledProcessError` caught at ffmpeg-merge.py:120). A failure to launch ffmpeg raises `OSError`, which is not caught and leaves `concat_list.txt` on disk; that case is not modelled.
- ConcatListBuilder.ParseLine: a path containing a newline would break the one-line-per-input format. The model reads lines one at a time and does not cover this.
- SegmentPlanner.SplitOutputsDistinct, ManifestInterpreter.ClipOutputsDistinct: distinctness relies on the names being relative (not starting with `/`). Manifest `rename_to` values are not shown distinct, since the source does not promise it.
