/**
 * split_by_manifest of ffmpeg-split.py: the manifest, read as JSON or as
 * CSV, becomes a list of entries, and each entry becomes one transcoder cut
 * named after its rename_to field.
 */
module ManifestInterpreter {
  import opened Wrappers
  import opened PathText
  import opened Segments

  /** One manifest entry, a JSON object or a CSV row, by key. */
  type Record = map<string, Scalar>

  /** A JSON manifest as json.load returns it. */
  datatype JsonManifest =
    | Structured(inputFile: string, clips: seq<Record>)  // an object with both input_file and output_clips
    | EntryList(entries: seq<Record>)                   // a list of entry objects
    | PlainObject(keys: seq<string>)                    // any other object; iterating it yields its keys

  /** The manifest type: the text after the last dot of its path. */
  function ManifestType(manifestPath: string): string {
    LastComponent(manifestPath)
  }

  /** `clip-<i>.<ext>`, the name a structured manifest gives its clip i. */
  function ClipName(i: nat, ext: string): string {
    "clip-" + NatToString(i) + "." + ext
  }

  /** The entry a structured manifest's clip i turns into. */
  function ClipEntry(clip: Record, i: nat, ext: string): Record
    requires "start_time" in clip && "length" in clip
  {
    map["start_time" := clip["start_time"], "length" := clip["length"], "rename_to" := Text(ClipName(i, ext))]
  }

  /** A clip that has both keys a structured clip needs. */
  predicate CompleteClip(clip: Record) {
    "start_time" in clip && "length" in clip
  }

  /** The entries built from the first n clips, or the key the first incomplete one lacks. */
  function ClipEntries(clips: seq<Record>, ext: string, n: nat): Result<seq<Record>, SplitError>
    requires n <= |clips|
  {
    if n == 0 then Success([])
    else match ClipEntries(clips, ext, n - 1)
      case Failure(e) => Failure(e)
      case Success(config) =>
        var clip := clips[n - 1];
        if "start_time" !in clip then Failure(MissingClipKey("start_time"))
        else if "length" !in clip then Failure(MissingClipKey("length"))
        else Success(config + [ClipEntry(clip, n - 1, ext)])
  }

  /** The duration of an entry: a truthy end_time, else its length, else none. */
  function EntryDuration(entry: Record): Option<Scalar> {
    if "end_time" in entry && entry["end_time"].Truthy() then Some(entry["end_time"])
    else if "length" in entry then Some(entry["length"])
    else None
  }

  /**
   * The output base for rename_to: its last dot-separated part is dropped
   * when the extension occurs anywhere in it as a substring.
   */
  function OutputBase(renameTo: string, ext: string): string {
    if Contains(renameTo, ext) then DropLastComponent(renameTo) else renameTo
  }

  /** The cut one entry asks for, or why the entry is rejected. */
  function EntryCut(entry: Record, format: ManifestFormat, ext: string, dir: string): Result<Segment, SplitError> {
    if "start_time" !in entry then Failure(MalformedEntry(format, "start_time"))
    else if EntryDuration(entry).None? then Failure(MalformedEntry(format, "length"))
    else if "rename_to" !in entry then Failure(MalformedEntry(format, "rename_to"))
    else if !entry["rename_to"].Text? then Failure(RenameNotText)
    else
      var base := OutputBase(entry["rename_to"].s, ext);
      Success(Segment(entry["start_time"], EntryDuration(entry).value, OutputPath(dir, base + "." + ext)))
  }

  /** The cuts for the first n entry outcomes, stopping at the first rejected entry. */
  function StopAtFirst(outcomes: seq<Result<Segment, SplitError>>, n: nat): Run
    requires n <= |outcomes|
  {
    if n == 0 then Run([], None)
    else
      var prev := StopAtFirst(outcomes, n - 1);
      if prev.error.Some? then prev
      else match outcomes[n - 1]
        case Failure(e) => Run(prev.calls, Some(e))
        case Success(cut) => Run(prev.calls + [cut], None)
  }

  /** What each entry asks for, in order. */
  function EntryCuts(entries: seq<Record>, format: ManifestFormat, ext: string, dir: string): seq<Result<Segment, SplitError>> {
    seq(|entries|, k requires 0 <= k < |entries| => EntryCut(entries[k], format, ext, dir))
  }

  /** The cuts for a list of entries, stopping at the first rejected one. */
  function EntriesRun(entries: seq<Record>, format: ManifestFormat, ext: string, dir: string): Run {
    StopAtFirst(EntryCuts(entries, format, ext, dir), |entries|)
  }

  /** The output directory: the one given, else Clip-<stem> beside a named input file, else none. */
  function ManifestDir(filename: string, outputDir: string): string {
    if outputDir == "" && filename != "" then DefaultOutputDir(filename) else outputDir
  }

  /** The cuts of a list of entries read with `format` for the input `filename`, if there is one. */
  function EntryListRun(filename: Option<string>, entries: seq<Record>, format: ManifestFormat, outputDir: string): Run {
    if filename.None? then Abort(NoInputFile)
    else EntriesRun(entries, format, LastComponent(filename.value), ManifestDir(filename.value, outputDir))
  }

  /** The input file of a structured manifest: the one given on the command line, else its input_file. */
  function StructuredInput(filename: Option<string>, inputFile: string): string {
    if filename.None? || filename.value == "" then inputFile else filename.value
  }

  /** The cuts of a structured manifest: its clips become entries clip-<i>.<ext>, then run as a list. */
  function StructuredRun(filename: Option<string>, inputFile: string, clips: seq<Record>, outputDir: string): Run {
    var name := StructuredInput(filename, inputFile);
    var ext := LastComponent(name);
    match ClipEntries(clips, ext, |clips|)
    case Failure(e) => Abort(e)
    case Success(config) => EntriesRun(config, Json, ext, ManifestDir(name, outputDir))
  }

  /**
   * What split_by_manifest does. `json` and `csvRows` are the manifest's
   * content as each parser reads it; only the one its type selects is used.
   * An input file name that is None (not given) is `filename == None`.
   */
  function ManifestRun(filename: Option<string>, manifestPath: string, manifestExists: bool,
                       json: JsonManifest, csvRows: seq<Record>, outputDir: string): Run
  {
    if !manifestExists then Abort(ManifestNotFound)
    else if ManifestType(manifestPath) == "json" then
      match json
      case Structured(inputFile, clips) => StructuredRun(filename, inputFile, clips, outputDir)
      case EntryList(entries) => EntryListRun(filename, entries, Json, outputDir)
      case PlainObject(keys) =>
        if filename.None? then Abort(NoInputFile)
        else if keys == [] then Run([], None)
        else Abort(NotAnEntry)
    else if ManifestType(manifestPath) == "csv" then EntryListRun(filename, csvRows, Csv, outputDir)
    else Abort(UnsupportedManifest(ManifestType(manifestPath)))
  }

  // ---------------------------------------------------------------------------
  // The two loops of split_by_manifest

  /** Once the clips have failed, later clips change nothing. */
  lemma {:induction false} ClipEntriesStayFailed(clips: seq<Record>, ext: string, m: nat, n: nat)
    requires m <= n <= |clips|
    requires ClipEntries(clips, ext, m).Failure?
    ensures ClipEntries(clips, ext, n) == ClipEntries(clips, ext, m)
    decreases n
  {
    if n > m {
      ClipEntriesStayFailed(clips, ext, m, n - 1);
    }
  }

  /** Once a run has stopped, later entries change nothing. */
  lemma {:induction false} StopAtFirstStaysStopped(outcomes: seq<Result<Segment, SplitError>>, m: nat, n: nat)
    requires m <= n <= |outcomes|
    requires StopAtFirst(outcomes, m).error.Some?
    ensures StopAtFirst(outcomes, n) == StopAtFirst(outcomes, m)
    decreases n
  {
    if n > m {
      StopAtFirstStaysStopped(outcomes, m, n - 1);
    }
  }

  /** The loop over output_clips: each clip becomes an entry named clip-<i>.<ext>. */
  method CollectClips(clips: seq<Record>, ext: string) returns (r: Result<seq<Record>, SplitError>)
    ensures r == ClipEntries(clips, ext, |clips|)
  {
    var config: seq<Record> := [];
    var i := 0;
    while i < |clips|
      invariant 0 <= i <= |clips|
      invariant ClipEntries(clips, ext, i) == Success(config)
    {
      var clip := clips[i];
      if "start_time" !in clip {
        r := Failure(MissingClipKey("start_time"));
        ClipEntriesStayFailed(clips, ext, i + 1, |clips|);
        return;
      }
      if "length" !in clip {
        r := Failure(MissingClipKey("length"));
        ClipEntriesStayFailed(clips, ext, i + 1, |clips|);
        return;
      }
      var renameTo := "clip-" + NatToString(i) + "." + ext;
      var configItem := map["start_time" := clip["start_time"], "length" := clip["length"], "rename_to" := Text(renameTo)];
      config := config + [configItem];
      i := i + 1;
    }
    r := Success(config);
  }

  /** The body of the loop over the entries: the cut one entry asks for, or why it is rejected. */
  method CutEntry(videoConfig: Record, format: ManifestFormat, ext: string, dir: string)
    returns (r: Result<Segment, SplitError>)
    ensures r == EntryCut(videoConfig, format, ext, dir)
  {
    if "start_time" !in videoConfig {
      return Failure(MalformedEntry(format, "start_time"));
    }
    var splitStart := videoConfig["start_time"];
    var splitLength := if "end_time" in videoConfig then videoConfig["end_time"] else Null;
    if !splitLength.Truthy() {
      if "length" !in videoConfig {
        return Failure(MalformedEntry(format, "length"));
      }
      splitLength := videoConfig["length"];
    }
    if "rename_to" !in videoConfig {
      return Failure(MalformedEntry(format, "rename_to"));
    }
    if !videoConfig["rename_to"].Text? {
      return Failure(RenameNotText);
    }
    var fileBase := videoConfig["rename_to"].s;
    if Contains(fileBase, ext) {
      fileBase := DropLastComponent(fileBase);
    }
    var outputPath := OutputPath(dir, fileBase + "." + ext);
    r := Success(Segment(splitStart, splitLength, outputPath));
  }

  /** The loop over the entries: one cut per entry, up to the first entry that is rejected. */
  method CutEntries(entries: seq<Record>, format: ManifestFormat, ext: string, dir: string) returns (run: Run)
    ensures run == EntriesRun(entries, format, ext, dir)
  {
    ghost var outcomes := EntryCuts(entries, format, ext, dir);
    var calls: seq<Segment> := [];
    var i := 0;
    while i < |entries|
      invariant 0 <= i <= |entries|
      invariant StopAtFirst(outcomes, i) == Run(calls, None)
    {
      var outcome := CutEntry(entries[i], format, ext, dir);
      assert outcome == outcomes[i];
      if outcome.Failure? {
        run := Run(calls, Some(outcome.error));
        StopAtFirstStaysStopped(outcomes, i + 1, |entries|);
        return;
      }
      calls := calls + [outcome.value];
      i := i + 1;
    }
    run := Run(calls, None);
  }

  /** split_by_manifest: the manifest check, the entries its type yields, the output directory, then the cuts. */
  method SplitByManifest(filename: Option<string>, manifestPath: string, manifestExists: bool,
                         json: JsonManifest, csvRows: seq<Record>, outputDir: string)
    returns (run: Run)
    ensures run == ManifestRun(filename, manifestPath, manifestExists, json, csvRows, outputDir)
  {
    if !manifestExists {
      return Abort(ManifestNotFound);
    }
    var manifestType := ManifestType(manifestPath);
    var name := filename;
    var config: seq<Record> := [];
    var format := Json;
    var iteratesKeys := false;
    if manifestType == "json" {
      match json
      case Structured(inputFile, clips) =>
        name := Some(StructuredInput(filename, inputFile));
        var built := CollectClips(clips, LastComponent(name.value));
        if built.Failure? {
          return Abort(built.error);
        }
        config := built.value;
      case EntryList(entries) =>
        config := entries;
      case PlainObject(keys) =>
        iteratesKeys := keys != [];
    } else if manifestType == "csv" {
      config := csvRows;
      format := Csv;
    } else {
      return Abort(UnsupportedManifest(manifestType));
    }
    if name.None? {
      return Abort(NoInputFile);
    }
    var dir := ManifestDir(name.value, outputDir);
    var fileExt := LastComponent(name.value);
    if iteratesKeys {
      return Abort(NotAnEntry);
    }
    run := CutEntries(config, format, fileExt, dir);
  }

  // ---------------------------------------------------------------------------
  // Properties

  /**
   * The clips become entries exactly when every clip has start_time and
   * length, and then clip k becomes entry k, named clip-<k>.<ext>.
   */
  lemma {:induction false} ClipEntriesShape(clips: seq<Record>, ext: string, n: nat)
    requires n <= |clips|
    ensures ClipEntries(clips, ext, n).Success? <==> forall k :: 0 <= k < n ==> CompleteClip(clips[k])
    ensures ClipEntries(clips, ext, n).Success? ==>
      && |ClipEntries(clips, ext, n).value| == n
      && forall k :: 0 <= k < n ==> ClipEntries(clips, ext, n).value[k] == ClipEntry(clips[k], k, ext)
  {
    if n > 0 {
      ClipEntriesShape(clips, ext, n - 1);
      if ClipEntries(clips, ext, n - 1).Failure? {
        assert !CompleteClip(clips[n - 1]) || ClipEntries(clips, ext, n).Failure?;
      }
    }
  }

  /**
   * The first incomplete clip decides the failure: its start_time is asked
   * for before its length, and no later clip is looked at.
   */
  lemma ClipEntriesFirstMissing(clips: seq<Record>, ext: string, f: nat)
    requires f < |clips|
    requires forall k :: 0 <= k < f ==> CompleteClip(clips[k])
    requires !CompleteClip(clips[f])
    ensures ClipEntries(clips, ext, |clips|) ==
      Failure(MissingClipKey(if "start_time" !in clips[f] then "start_time" else "length"))
  {
    ClipEntriesShape(clips, ext, f);
    ClipEntriesStayFailed(clips, ext, f + 1, |clips|);
  }

  /**
   * A run finishes without error exactly when every outcome is a cut, and
   * then it makes those cuts, in order.
   */
  lemma {:induction false} StopAtFirstShape(outcomes: seq<Result<Segment, SplitError>>, n: nat)
    requires n <= |outcomes|
    ensures StopAtFirst(outcomes, n).error == None <==> forall k :: 0 <= k < n ==> outcomes[k].Success?
    ensures StopAtFirst(outcomes, n).error == None ==>
      && |StopAtFirst(outcomes, n).calls| == n
      && forall k :: 0 <= k < n ==> StopAtFirst(outcomes, n).calls[k] == outcomes[k].value
  {
    if n > 0 {
      StopAtFirstShape(outcomes, n - 1);
    }
  }

  /** The first failure stops the run with its error, after the cuts before it. */
  lemma StopAtFirstStopsAt(outcomes: seq<Result<Segment, SplitError>>, f: nat)
    requires f < |outcomes|
    requires forall k :: 0 <= k < f ==> outcomes[k].Success?
    requires outcomes[f].Failure?
    ensures var r := StopAtFirst(outcomes, |outcomes|);
      && r.error == Some(outcomes[f].error)
      && |r.calls| == f
      && forall k :: 0 <= k < f ==> r.calls[k] == outcomes[k].value
  {
    StopAtFirstShape(outcomes, f);
    StopAtFirstStaysStopped(outcomes, f + 1, |outcomes|);
  }

  /** Two outcome lists that agree on which entries succeed and on their cuts give the same cuts. */
  lemma {:induction false} StopAtFirstSameCuts(o1: seq<Result<Segment, SplitError>>, o2: seq<Result<Segment, SplitError>>, n: nat)
    requires n <= |o1| && n <= |o2|
    requires forall k :: 0 <= k < n ==> (o1[k].Success? <==> o2[k].Success?)
    requires forall k :: 0 <= k < n && o1[k].Success? ==> o1[k].value == o2[k].value
    ensures StopAtFirst(o1, n).calls == StopAtFirst(o2, n).calls
    ensures StopAtFirst(o1, n).error == None <==> StopAtFirst(o2, n).error == None
  {
    if n > 0 {
      StopAtFirstSameCuts(o1, o2, n - 1);
    }
  }

  /**
   * A list of entries runs without error exactly when every entry is
   * accepted, and then it makes one cut per entry, in order.
   */
  lemma EntriesRunShape(entries: seq<Record>, format: ManifestFormat, ext: string, dir: string)
    ensures EntriesRun(entries, format, ext, dir).error == None <==>
      forall k :: 0 <= k < |entries| ==> EntryCut(entries[k], format, ext, dir).Success?
    ensures EntriesRun(entries, format, ext, dir).error == None ==>
      && |EntriesRun(entries, format, ext, dir).calls| == |entries|
      && forall k :: 0 <= k < |entries| ==>
           EntriesRun(entries, format, ext, dir).calls[k] == EntryCut(entries[k], format, ext, dir).value
  {
    var outcomes := EntryCuts(entries, format, ext, dir);
    StopAtFirstShape(outcomes, |entries|);
    assert forall k :: 0 <= k < |entries| ==> outcomes[k] == EntryCut(entries[k], format, ext, dir);
  }

  /**
   * The first rejected entry stops the run with its error, after the cuts
   * of all the entries before it; no later entry is looked at.
   */
  lemma EntriesRunStopsAtFirstRejected(entries: seq<Record>, format: ManifestFormat, ext: string, dir: string, f: nat)
    requires f < |entries|
    requires forall k :: 0 <= k < f ==> EntryCut(entries[k], format, ext, dir).Success?
    requires EntryCut(entries[f], format, ext, dir).Failure?
    ensures var r := EntriesRun(entries, format, ext, dir);
      && r.error == Some(EntryCut(entries[f], format, ext, dir).error)
      && |r.calls| == f
      && forall k :: 0 <= k < f ==> r.calls[k] == EntryCut(entries[k], format, ext, dir).value
  {
    var outcomes := EntryCuts(entries, format, ext, dir);
    assert forall k :: 0 <= k < |entries| ==> outcomes[k] == EntryCut(entries[k], format, ext, dir);
    StopAtFirstStopsAt(outcomes, f);
  }

  /** The manifest format only selects the schema hint: JSON and CSV entries give the same cuts. */
  lemma FormatOnlyNamesTheSchema(entries: seq<Record>, ext: string, dir: string)
    ensures EntriesRun(entries, Json, ext, dir).calls == EntriesRun(entries, Csv, ext, dir).calls
    ensures EntriesRun(entries, Json, ext, dir).error == None <==> EntriesRun(entries, Csv, ext, dir).error == None
  {
    var o1, o2 := EntryCuts(entries, Json, ext, dir), EntryCuts(entries, Csv, ext, dir);
    assert forall k :: 0 <= k < |entries| ==> o1[k] == EntryCut(entries[k], Json, ext, dir) && o2[k] == EntryCut(entries[k], Csv, ext, dir);
    StopAtFirstSameCuts(o1, o2, |entries|);
  }

  /** A rename_to of the form <b>.<ext> keeps b: the extension is not doubled. */
  lemma RenameKeepsOneExtension(b: string, ext: string)
    requires '.' !in ext
    ensures OutputBase(b + "." + ext, ext) == b
  {
    ContainsSuffix(b + ".", ext);
    DottedName(b, ext);
  }

  /**
   * The extension test is a substring test: rename_to "mp4-intro" with
   * extension mp4 has no dot, so its whole text is dropped and the cut is
   * named ".mp4".
   */
  lemma SubstringTestDropsWholeName()
    ensures OutputBase("mp4-intro", "mp4") == ""
  {
    assert IsPrefix("mp4", "mp4-intro");
    RFindIsLast("mp4-intro", '.', -1);
  }

  /** A truthy end_time is the duration, even when length is absent; otherwise length is. */
  lemma EndTimeIsPassedThrough(entry: Record, format: ManifestFormat, ext: string, dir: string)
    requires "start_time" in entry && "rename_to" in entry && entry["rename_to"].Text?
    ensures "end_time" in entry && entry["end_time"].Truthy() ==>
      EntryCut(entry, format, ext, dir).Success? && EntryCut(entry, format, ext, dir).value.duration == entry["end_time"]
    ensures !("end_time" in entry && entry["end_time"].Truthy()) ==>
      if "length" in entry then EntryCut(entry, format, ext, dir).Success? && EntryCut(entry, format, ext, dir).value.duration == entry["length"]
      else EntryCut(entry, format, ext, dir) == Failure(MalformedEntry(format, "length"))
  {
  }

  /** Clip k of a structured manifest becomes the cut clip-<k>.<ext> with the clip's own start and length. */
  lemma ClipEntryCut(clip: Record, k: nat, ext: string, dir: string)
    requires CompleteClip(clip) && '.' !in ext
    ensures EntryCut(ClipEntry(clip, k, ext), Json, ext, dir) ==
      Success(Segment(clip["start_time"], clip["length"], OutputPath(dir, ClipName(k, ext))))
  {
    var b := "clip-" + NatToString(k);
    assert ClipName(k, ext) == b + "." + ext;
    RenameKeepsOneExtension(b, ext);
    var entry := ClipEntry(clip, k, ext);
    assert "end_time" !in entry;
  }

  /**
   * Complete clips become entries that cut clip i from its start_time for
   * its length into clip-<i>.<ext> under `dir`.
   */
  lemma CompleteClipsCut(clips: seq<Record>, ext: string, dir: string)
    requires '.' !in ext
    requires forall k :: 0 <= k < |clips| ==> "start_time" in clips[k] && "length" in clips[k]
    ensures ClipEntries(clips, ext, |clips|).Success?
    ensures var r := EntriesRun(ClipEntries(clips, ext, |clips|).value, Json, ext, dir);
      && r.error == None
      && |r.calls| == |clips|
      && forall i :: 0 <= i < |clips| ==>
           r.calls[i] == Segment(clips[i]["start_time"], clips[i]["length"], OutputPath(dir, ClipName(i, ext)))
  {
    ClipEntriesShape(clips, ext, |clips|);
    var config := ClipEntries(clips, ext, |clips|).value;
    forall k | 0 <= k < |config|
      ensures EntryCut(config[k], Json, ext, dir) ==
        Success(Segment(clips[k]["start_time"], clips[k]["length"], OutputPath(dir, ClipName(k, ext))))
    {
      ClipEntryCut(clips[k], k, ext, dir);
    }
    EntriesRunShape(config, Json, ext, dir);
  }

  /**
   * A structured manifest whose clips are all complete makes one cut per
   * clip, in order: clip i is cut from its start_time for its length into
   * clip-<i>.<ext>, where ext comes from the command-line file name when one
   * is given and from input_file otherwise.
   */
  lemma StructuredManifestCuts(filename: Option<string>, inputFile: string, clips: seq<Record>, outputDir: string)
    requires forall k :: 0 <= k < |clips| ==> "start_time" in clips[k] && "length" in clips[k]
    ensures var name := StructuredInput(filename, inputFile);
      var r := StructuredRun(filename, inputFile, clips, outputDir);
      && r.error == None
      && |r.calls| == |clips|
      && forall i :: 0 <= i < |clips| ==>
           r.calls[i] == Segment(clips[i]["start_time"], clips[i]["length"],
                                 OutputPath(ManifestDir(name, outputDir), ClipName(i, LastComponent(name))))
  {
    var name := StructuredInput(filename, inputFile);
    CompleteClipsCut(clips, LastComponent(name), ManifestDir(name, outputDir));
  }

  /** Structured manifests are checked whole: an incomplete clip anywhere means no cut at all. */
  lemma StructuredManifestIncomplete(filename: Option<string>, inputFile: string, clips: seq<Record>, outputDir: string, f: nat)
    requires f < |clips|
    requires forall k :: 0 <= k < f ==> CompleteClip(clips[k])
    requires !CompleteClip(clips[f])
    ensures StructuredRun(filename, inputFile, clips, outputDir) ==
      Abort(MissingClipKey(if "start_time" !in clips[f] then "start_time" else "length"))
  {
    ClipEntriesFirstMissing(clips, LastComponent(StructuredInput(filename, inputFile)), f);
  }

  /** Different clips of one manifest never share an output path. */
  lemma ClipOutputsDistinct(dir: string, ext: string, i: nat, j: nat)
    requires i != j
    ensures OutputPath(dir, ClipName(i, ext)) != OutputPath(dir, ClipName(j, ext))
  {
    var a, b := ClipName(i, ext), ClipName(j, ext);
    var di, dj := NatToString(i), NatToString(j);
    assert a == "clip-" + di + ("." + ext);
    assert b == "clip-" + dj + ("." + ext);
    if a == b {
      assert di[0] == a[5] == b[5] == dj[0];
      assert |di| == |dj| by {
        NatToStringDigits(i);
        NatToStringDigits(j);
      }
      assert di == a[5..5 + |di|];
      assert dj == b[5..5 + |dj|];
      NatToStringInjective(i, j);
    }
    assert a[0] == 'c' && b[0] == 'c';
    OutputPathInjective(dir, a, b);
  }

  /** A manifest whose type is neither json nor csv is rejected before any cut. */
  lemma UnsupportedManifestRejected(filename: Option<string>, manifestPath: string,
                                    json: JsonManifest, csvRows: seq<Record>, outputDir: string)
    requires ManifestType(manifestPath) != "json" && ManifestType(manifestPath) != "csv"
    ensures ManifestRun(filename, manifestPath, true, json, csvRows, outputDir) ==
      Abort(UnsupportedManifest(ManifestType(manifestPath)))
  {
  }
}
