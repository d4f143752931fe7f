/**
 * check_videos_compatibility of ffmpeg-merge.py: every input is probed in
 * order, the first failed probe stops the check, and then every probed
 * video is compared with the first one on codec, width and height.
 */
module CompatibilityChecker {
  import opened Wrappers

  /** What the probe reports for one file; each stream field may be missing (None). */
  datatype Info = Info(
    codecName: Option<string>,
    width: Option<int>,
    height: Option<int>,
    formatName: Option<string>,
    filePath: string)

  /** The outcome of the check; every mismatch carries the reference value and the offending one. */
  datatype Verdict =
    | Compatible(infos: seq<Info>)
    | NoVideoFiles
    | ProbeFailed(path: string)
    | CodecMismatch(expected: Option<string>, found: Option<string>)
    | ResolutionMismatch(expectedWidth: Option<int>, expectedHeight: Option<int>,
                         foundWidth: Option<int>, foundHeight: Option<int>)

  /** The infos of the first n files, or the path of the first one whose probe failed. */
  function Probed(files: seq<string>, probes: seq<Option<Info>>, n: nat): Result<seq<Info>, string>
    requires n <= |files| == |probes|
  {
    if n == 0 then Success([])
    else match Probed(files, probes, n - 1)
      case Failure(path) => Failure(path)
      case Success(infos) =>
        if probes[n - 1].None? then Failure(files[n - 1]) else Success(infos + [probes[n - 1].value])
  }

  /** How `info` differs from `reference`: the codec is compared first, then the resolution. */
  function Mismatch(reference: Info, info: Info): (r: Option<Verdict>)
    ensures r.Some? ==> r.value.CodecMismatch? || r.value.ResolutionMismatch?
  {
    if info.codecName != reference.codecName then
      Some(CodecMismatch(reference.codecName, info.codecName))
    else if info.width != reference.width || info.height != reference.height then
      Some(ResolutionMismatch(reference.width, reference.height, info.width, info.height))
    else None
  }

  /** The first mismatch with infos[0] among infos[1..n], if any. */
  function FirstMismatch(infos: seq<Info>, n: nat): (r: Option<Verdict>)
    requires 0 < |infos| && n <= |infos|
    ensures r.Some? ==> r.value.CodecMismatch? || r.value.ResolutionMismatch?
  {
    if n <= 1 then None
    else if FirstMismatch(infos, n - 1).Some? then FirstMismatch(infos, n - 1)
    else Mismatch(infos[0], infos[n - 1])
  }

  /** The verdict on `files`, where probes[k] is what probing files[k] yields. */
  function Compatibility(files: seq<string>, probes: seq<Option<Info>>): Verdict
    requires |files| == |probes|
  {
    if |files| == 0 then NoVideoFiles
    else match Probed(files, probes, |files|)
      case Failure(path) => ProbeFailed(path)
      case Success(infos) =>
        ProbedShape(files, probes, |files|);
        if FirstMismatch(infos, |infos|).Some? then FirstMismatch(infos, |infos|).value
        else Compatible(infos)
  }

  // ---------------------------------------------------------------------------
  // Helpers on the two recursive definitions

  /** Once a probe has failed, later files change nothing. */
  lemma {:induction false} ProbedStaysFailed(files: seq<string>, probes: seq<Option<Info>>, m: nat, n: nat)
    requires m <= n <= |files| == |probes|
    requires Probed(files, probes, m).Failure?
    ensures Probed(files, probes, n) == Probed(files, probes, m)
    decreases n
  {
    if n > m {
      ProbedStaysFailed(files, probes, m, n - 1);
    }
  }

  /** Once a mismatch is found, later videos change nothing. */
  lemma {:induction false} FirstMismatchStays(infos: seq<Info>, m: nat, n: nat)
    requires 0 < |infos| && m <= n <= |infos|
    requires FirstMismatch(infos, m).Some?
    ensures FirstMismatch(infos, n) == FirstMismatch(infos, m)
    decreases n
  {
    if n > m {
      FirstMismatchStays(infos, m, n - 1);
    }
  }

  /**
   * Probing succeeds exactly when every probe does, and then yields the
   * probed infos in input order.
   */
  lemma {:induction false} ProbedShape(files: seq<string>, probes: seq<Option<Info>>, n: nat)
    requires n <= |files| == |probes|
    ensures Probed(files, probes, n).Success? <==> forall k :: 0 <= k < n ==> probes[k].Some?
    ensures Probed(files, probes, n).Success? ==>
      && |Probed(files, probes, n).value| == n
      && forall k :: 0 <= k < n ==> Probed(files, probes, n).value[k] == probes[k].value
  {
    if n > 0 {
      ProbedShape(files, probes, n - 1);
    }
  }

  /** No mismatch among the first n exactly when each of them matches the first. */
  lemma {:induction false} FirstMismatchNone(infos: seq<Info>, n: nat)
    requires 0 < |infos| && n <= |infos|
    ensures FirstMismatch(infos, n).None? <==> forall k :: 1 <= k < n ==> Mismatch(infos[0], infos[k]).None?
  {
    if n > 1 {
      FirstMismatchNone(infos, n - 1);
    }
  }

  // ---------------------------------------------------------------------------
  // The method

  /** check_videos_compatibility: probe every file in order, then compare each with the first. */
  method CheckVideosCompatibility(videoFiles: seq<string>, probes: seq<Option<Info>>) returns (v: Verdict)
    requires |probes| == |videoFiles|
    ensures v == Compatibility(videoFiles, probes)
  {
    if |videoFiles| == 0 {
      return NoVideoFiles;
    }
    var videoInfos: seq<Info> := [];
    var i := 0;
    while i < |videoFiles|
      invariant 0 <= i <= |videoFiles|
      invariant Probed(videoFiles, probes, i) == Success(videoInfos)
      invariant |videoInfos| == i
    {
      var info := probes[i];
      if info.None? {
        ProbedStaysFailed(videoFiles, probes, i + 1, |videoFiles|);
        return ProbeFailed(videoFiles[i]);
      }
      videoInfos := videoInfos + [info.value];
      i := i + 1;
    }
    // Every file was probed, so the "no information for any file" branch cannot be taken.
    assert |videoInfos| > 0;
    var reference := videoInfos[0];
    var j := 1;
    while j < |videoInfos|
      invariant 1 <= j <= |videoInfos|
      invariant FirstMismatch(videoInfos, j).None?
    {
      var info := videoInfos[j];
      if info.codecName != reference.codecName {
        FirstMismatchStays(videoInfos, j + 1, |videoInfos|);
        return CodecMismatch(reference.codecName, info.codecName);
      }
      if info.width != reference.width || info.height != reference.height {
        FirstMismatchStays(videoInfos, j + 1, |videoInfos|);
        return ResolutionMismatch(reference.width, reference.height, info.width, info.height);
      }
      j := j + 1;
    }
    v := Compatible(videoInfos);
  }

  // ---------------------------------------------------------------------------
  // Properties

  /** Two infos that agree on codec, width and height. */
  predicate SameStream(a: Info, b: Info) {
    a.codecName == b.codecName && a.width == b.width && a.height == b.height
  }

  /**
   * The videos are compatible exactly when there is at least one, every
   * probe succeeds and every video agrees with the first on codec, width and
   * height; the result then lists the probed infos in input order.
   */
  lemma CompatibleIff(files: seq<string>, probes: seq<Option<Info>>)
    requires |files| == |probes|
    ensures Compatibility(files, probes).Compatible? <==>
      && 0 < |files|
      && (forall k :: 0 <= k < |probes| ==> probes[k].Some?)
      && (forall k :: 0 <= k < |probes| ==> SameStream(probes[0].value, probes[k].value))
    ensures Compatibility(files, probes).Compatible? ==>
      && |Compatibility(files, probes).infos| == |files|
      && forall k :: 0 <= k < |files| ==> Compatibility(files, probes).infos[k] == probes[k].value
  {
    ProbedShape(files, probes, |files|);
    if 0 < |files| && Probed(files, probes, |files|).Success? {
      var infos := Probed(files, probes, |files|).value;
      FirstMismatchNone(infos, |infos|);
      assert forall k :: 0 <= k < |infos| ==> infos[k] == probes[k].value;
      assert forall k :: 0 <= k < |infos| ==> (Mismatch(infos[0], infos[k]).None? <==> SameStream(infos[0], infos[k]));
    }
  }

  /** An empty list is rejected before anything is probed. */
  lemma EmptyListHasNoVideos(probes: seq<Option<Info>>)
    requires |probes| == 0
    ensures Compatibility([], probes) == NoVideoFiles
  {
  }

  /** The first failed probe, in input order, names the result. */
  lemma FirstProbeFailureNamed(files: seq<string>, probes: seq<Option<Info>>, f: nat)
    requires |files| == |probes| && f < |files|
    requires forall k :: 0 <= k < f ==> probes[k].Some?
    requires probes[f].None?
    ensures Compatibility(files, probes) == ProbeFailed(files[f])
  {
    ProbedShape(files, probes, f);
    ProbedStaysFailed(files, probes, f + 1, |files|);
  }

  /** Nothing after the first failed probe is looked at: later probes cannot change the verdict. */
  lemma LaterProbesIgnored(files: seq<string>, probes: seq<Option<Info>>, later: seq<Option<Info>>, f: nat)
    requires |files| == |probes| == |later| && f < |files|
    requires probes[..f + 1] == later[..f + 1]
    requires probes[f].None?
    ensures Compatibility(files, probes) == Compatibility(files, later)
  {
    var g :| 0 <= g <= f && probes[g].None? && forall k :: 0 <= k < g ==> probes[k].Some?
      by { FirstNone(probes, f); }
    assert later[g] == probes[g] by { assert later[..f + 1][g] == probes[..f + 1][g]; }
    forall k | 0 <= k < g ensures later[k].Some? {
      assert later[..f + 1][k] == probes[..f + 1][k];
    }
    FirstProbeFailureNamed(files, probes, g);
    FirstProbeFailureNamed(files, later, g);
  }

  /** Among indices up to f, some first one has a failed probe. */
  lemma {:induction false} FirstNone(probes: seq<Option<Info>>, f: nat)
    requires f < |probes| && probes[f].None?
    ensures exists g :: 0 <= g <= f && probes[g].None? && forall k :: 0 <= k < g ==> probes[k].Some?
    decreases f
  {
    if forall k :: 0 <= k < f ==> probes[k].Some? {
      assert 0 <= f <= f && probes[f].None?;
    } else {
      var h :| 0 <= h < f && probes[h].None?;
      FirstNone(probes, h);
    }
  }

  /**
   * With every probe successful, the first video that differs from the
   * first one decides the verdict: a codec difference is reported before a
   * resolution difference, each with the reference value and the offending one.
   */
  lemma FirstMismatchDecides(files: seq<string>, probes: seq<Option<Info>>, f: nat)
    requires |files| == |probes| && 0 < f < |files|
    requires forall k :: 0 <= k < |probes| ==> probes[k].Some?
    requires forall k :: 1 <= k < f ==> SameStream(probes[0].value, probes[k].value)
    requires !SameStream(probes[0].value, probes[f].value)
    ensures var reference, info := probes[0].value, probes[f].value;
      Compatibility(files, probes) ==
        if info.codecName != reference.codecName then CodecMismatch(reference.codecName, info.codecName)
        else ResolutionMismatch(reference.width, reference.height, info.width, info.height)
  {
    ProbedShape(files, probes, |files|);
    var infos := Probed(files, probes, |files|).value;
    FirstMismatchNone(infos, f);
    FirstMismatchStays(infos, f + 1, |infos|);
  }

  /**
   * Probes that agree on which files probe successfully and on the streams
   * fail at the same file, or both succeed with infos that agree on the
   * streams, file by file.
   */
  lemma {:induction false} ProbedAlike(files: seq<string>, probes: seq<Option<Info>>, other: seq<Option<Info>>, n: nat)
    requires n <= |files| == |probes| == |other|
    requires forall k :: 0 <= k < |probes| ==> (probes[k].Some? <==> other[k].Some?)
    requires forall k :: 0 <= k < |probes| && probes[k].Some? ==> SameStream(probes[k].value, other[k].value)
    ensures Probed(files, probes, n).Failure? <==> Probed(files, other, n).Failure?
    ensures Probed(files, probes, n).Failure? ==> Probed(files, probes, n) == Probed(files, other, n)
    ensures Probed(files, probes, n).Success? ==>
      && |Probed(files, probes, n).value| == |Probed(files, other, n).value| == n
      && forall k :: 0 <= k < n ==> SameStream(Probed(files, probes, n).value[k], Probed(files, other, n).value[k])
  {
    if n > 0 {
      ProbedAlike(files, probes, other, n - 1);
    }
  }

  /** Infos that agree on the streams, file by file, have the same first mismatch. */
  lemma {:induction false} FirstMismatchAlike(a: seq<Info>, b: seq<Info>, n: nat)
    requires 0 < |a| == |b| && n <= |a|
    requires forall k :: 0 <= k < |a| ==> SameStream(a[k], b[k])
    ensures FirstMismatch(a, n) == FirstMismatch(b, n)
  {
    if n > 1 {
      FirstMismatchAlike(a, b, n - 1);
      assert Mismatch(a[0], a[n - 1]) == Mismatch(b[0], b[n - 1]);
    }
  }

  /**
   * format_name is never compared: probes that agree on which files probe
   * successfully and on codec, width and height are compatible together,
   * and every other verdict is the same for both. Compatible verdicts then
   * list infos that agree on the streams, file by file.
   */
  lemma FormatNotCompared(files: seq<string>, probes: seq<Option<Info>>, other: seq<Option<Info>>)
    requires |files| == |probes| == |other|
    requires forall k :: 0 <= k < |probes| ==> (probes[k].Some? <==> other[k].Some?)
    requires forall k :: 0 <= k < |probes| && probes[k].Some? ==> SameStream(probes[k].value, other[k].value)
    ensures Compatibility(files, probes).Compatible? <==> Compatibility(files, other).Compatible?
    ensures !Compatibility(files, probes).Compatible? ==> Compatibility(files, probes) == Compatibility(files, other)
    ensures Compatibility(files, probes).Compatible? ==>
      && |Compatibility(files, probes).infos| == |Compatibility(files, other).infos|
      && forall k :: 0 <= k < |Compatibility(files, probes).infos| ==>
           SameStream(Compatibility(files, probes).infos[k], Compatibility(files, other).infos[k])
  {
    if 0 < |files| {
      ProbedAlike(files, probes, other, |files|);
      if Probed(files, probes, |files|).Success? {
        FirstMismatchAlike(Probed(files, probes, |files|).value, Probed(files, other, |files|).value, |files|);
      }
    }
  }
}
