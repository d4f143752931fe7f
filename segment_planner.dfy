/**
 * Splitting by time in ffmpeg-split.py: ceildiv, split_by_seconds (the
 * enumeration of equal-length segments and their names) and the block of
 * main that derives the segment length from an explicit length, a byte
 * target with the even or eager strategy, or a chunk count.
 */
module SegmentPlanner {
  import opened Wrappers
  import opened PathText
  import opened Segments

  // ---------------------------------------------------------------------------
  // Arithmetic

  /** ceildiv(a, b): the ceiling of a / b, for any non-zero divisor (bounds in CeilDivBounds). */
  function CeilDiv(a: int, b: int): int
    requires b != 0
  {
    if b > 0 then -((-a) / b) else -(a / (-b))
  }

  /** CeilDiv(a, b) is the least multiple count of b reaching a: the ceiling of a / b. */
  lemma CeilDivBounds(a: int, b: int)
    requires b != 0
    ensures b > 0 ==> (CeilDiv(a, b) - 1) * b < a <= CeilDiv(a, b) * b
    ensures b < 0 ==> CeilDiv(a, b) * b <= a < (CeilDiv(a, b) - 1) * b
  {
    if b > 0 {
      var q, m := (-a) / b, (-a) % b;
      assert -a == q * b + m && 0 <= m < b;
      assert CeilDiv(a, b) == -q;
      assert (-q) * b == a + m;
      assert (-q - 1) * b == a + m - b;
    } else {
      var c := -b;
      var q, m := a / c, a % c;
      assert a == q * c + m && 0 <= m < c;
      assert CeilDiv(a, b) == -q;
      assert (-q) * b == a - m;
      assert (-q - 1) * b == a - m + c;
    }
  }

  /** With a non-negative dividend and a positive divisor the quotient is a count. */
  lemma CeilDivNonNegative(a: int, b: int)
    requires 0 <= a && 0 < b
    ensures 0 <= CeilDiv(a, b)
  {
  }

  /** Multiplying by a non-negative factor keeps the order. */
  lemma MulMono(a: int, b: int, m: int)
    requires a <= b && 0 <= m
    ensures a * m <= b * m
  {
  }

  /** A strict inequality between multiples of a positive m holds between the factors. */
  lemma MulLtCancel(a: int, b: int, m: int)
    requires 0 < m && a * m < b * m
    ensures a < b
  {
    if a >= b { MulMono(b, a, m); }
  }

  /** A ceiling quotient of a positive dividend by a positive divisor is positive. */
  lemma CeilDivPositive(a: int, b: int)
    requires 0 < a && 0 < b
    ensures CeilDiv(a, b) >= 1
  {
    CeilDivBounds(a, b);
    var r := CeilDiv(a, b);
    if r <= 0 { MulMono(r, 0, b); }
  }

  /** Every multiple of b before the last of the CeilDiv(a, b) lies strictly below a. */
  lemma EarlyMultiplesInside(a: int, b: int)
    requires 0 < b
    ensures forall n :: 0 <= n < CeilDiv(a, b) - 1 ==> b * n + b < a
  {
    var c := CeilDiv(a, b);
    CeilDivBounds(a, b);
    forall n | 0 <= n < c - 1
      ensures b * n + b < a
    {
      MulMono(n + 1, c - 1, b);
    }
  }

  /** Exactly one segment is needed precisely when 0 < a <= b. */
  lemma CeilDivIsOne(a: int, b: int)
    requires 0 < b
    ensures CeilDiv(a, b) == 1 <==> 0 < a <= b
  {
    CeilDivBounds(a, b);
    var r := CeilDiv(a, b);
    if r >= 2 { MulMono(1, r - 1, b); }
    if r <= 0 { MulMono(r, 0, b); }
  }

  // ---------------------------------------------------------------------------
  // split_by_seconds

  /** The name of the input file without directory and extension. */
  function FileBase(filename: string): (r: string)
    ensures '/' !in r
  {
    var b := Basename(filename);
    var r := DropLastComponent(b);
    assert forall k :: 0 <= k < |r| ==> r[k] == b[k];
    r
  }

  /** The extension of the input file: the last dot-separated part of its base name. */
  function FileExt(filename: string): string {
    LastComponent(Basename(filename))
  }

  /** `<base>-<k>-of-<count>.<ext>`, the name of segment k of count. */
  function SegmentName(base: string, k: nat, count: nat, ext: string): string {
    base + "-" + NatToString(k) + "-of-" + NatToString(count) + "." + ext
  }

  /** The output directory: the one given, or the default Clip-<stem> beside the input. */
  function ResolvedDir(filename: string, outputDir: string): string {
    if outputDir == "" then DefaultOutputDir(filename) else outputDir
  }

  /** The cut for 0-based segment n of count, for an input named <base>.<ext>. */
  function SegmentAt(dir: string, base: string, ext: string, splitLength: int, count: nat, n: nat): Segment {
    Segment(Int(splitLength * n), Int(splitLength), OutputPath(dir, SegmentName(base, n + 1, count, ext)))
  }

  /** The cuts for segments 0..n-1 of count, in order. */
  function SegmentsUpTo(dir: string, base: string, ext: string, splitLength: int, count: nat, n: nat): seq<Segment> {
    if n == 0 then [] else SegmentsUpTo(dir, base, ext, splitLength, count, n - 1) + [SegmentAt(dir, base, ext, splitLength, count, n - 1)]
  }

  /** The first n cuts are n in number, and cut k is the one for segment k. */
  lemma {:induction false} SegmentsUpToAt(dir: string, base: string, ext: string, splitLength: int, count: nat, n: nat)
    ensures |SegmentsUpTo(dir, base, ext, splitLength, count, n)| == n
    ensures forall k :: 0 <= k < n ==>
      SegmentsUpTo(dir, base, ext, splitLength, count, n)[k] == SegmentAt(dir, base, ext, splitLength, count, k)
  {
    if n > 0 {
      SegmentsUpToAt(dir, base, ext, splitLength, count, n - 1);
    }
  }

  /** Cut k of the first n starts at length * k and lasts the full length. */
  lemma {:induction false} SegmentsUpToTiming(dir: string, base: string, ext: string, splitLength: int, count: nat, n: nat)
    ensures |SegmentsUpTo(dir, base, ext, splitLength, count, n)| == n
    ensures forall k :: 0 <= k < n ==>
      && SegmentsUpTo(dir, base, ext, splitLength, count, n)[k].start == Int(splitLength * k)
      && SegmentsUpTo(dir, base, ext, splitLength, count, n)[k].duration == Int(splitLength)
  {
    if n > 0 {
      SegmentsUpToTiming(dir, base, ext, splitLength, count, n - 1);
    }
  }

  /**
   * What split_by_seconds does for a video of `videoLength` seconds whose
   * cuts go to directory `dir` and are named after `base` and `ext`: the cuts
   * it issues and the reason it stops, if it does. A negative length is
   * rejected; a zero length passes that check and fails in ceildiv's division.
   */
  function SecondsPlan(dir: string, base: string, ext: string, splitLength: int, videoLength: nat): (r: Run)
    ensures r.error.Some? ==> r.calls == []
  {
    if splitLength < 0 then Abort(InvalidLength(splitLength))
    else if splitLength == 0 then Abort(DivisionByZero)
    else
      var count := CeilDiv(videoLength, splitLength);
      if count == 1 then Abort(TrivialSplit)
      else
        CeilDivNonNegative(videoLength, splitLength);
        Run(SegmentsUpTo(dir, base, ext, splitLength, count, count), None)
  }

  /** split_by_seconds for the input `filename`: its directory, base name and extension fill in the plan. */
  function SecondsRun(filename: string, splitLength: int, outputDir: string, videoLength: nat): Run {
    SecondsPlan(ResolvedDir(filename, outputDir), FileBase(filename), FileExt(filename), splitLength, videoLength)
  }

  /** The loop of split_by_seconds: one cut per segment, each starting where the previous one ends. */
  method CutSegments(dir: string, fileBase: string, fileExt: string, splitLength: int, splitCount: nat)
    returns (calls: seq<Segment>)
    ensures calls == SegmentsUpTo(dir, fileBase, fileExt, splitLength, splitCount, splitCount)
  {
    calls := [];
    var n := 0;
    while n < splitCount
      invariant 0 <= n <= splitCount
      invariant calls == SegmentsUpTo(dir, fileBase, fileExt, splitLength, splitCount, n)
    {
      var splitStart := if n == 0 then 0 else splitLength * n;
      var outputPath := OutputPath(dir, SegmentName(fileBase, n + 1, splitCount, fileExt));
      calls := calls + [Segment(Int(splitStart), Int(splitLength), outputPath)];
      n := n + 1;
    }
  }

  /** split_by_seconds: the checks, the segment count, the output directory, then one cut per segment. */
  method SplitBySeconds(filename: string, splitLength: int, outputDir: string, videoLength: nat)
    returns (run: Run)
    ensures run == SecondsRun(filename, splitLength, outputDir, videoLength)
  {
    if splitLength != 0 && splitLength <= 0 {
      return Abort(InvalidLength(splitLength));
    }
    if splitLength == 0 {
      return Abort(DivisionByZero);
    }
    var splitCount := CeilDiv(videoLength, splitLength);
    if splitCount == 1 {
      return Abort(TrivialSplit);
    }
    CeilDivNonNegative(videoLength, splitLength);
    var dir := ResolvedDir(filename, outputDir);
    var fileBase := FileBase(filename);
    var fileExt := FileExt(filename);
    var calls := CutSegments(dir, fileBase, fileExt, splitLength, splitCount);
    run := Run(calls, None);
  }

  /**
   * A successful split of a non-empty video into segments of a positive
   * length makes ceildiv(video, length) cuts, at least two; cut n starts at
   * length * n (the first at 0, each next where the previous ends) and
   * lasts the full length.
   */
  lemma SecondsRunShape(dir: string, base: string, ext: string, splitLength: int, videoLength: nat)
    requires 0 < splitLength && 0 < videoLength
    requires SecondsPlan(dir, base, ext, splitLength, videoLength).error == None
    ensures var calls := SecondsPlan(dir, base, ext, splitLength, videoLength).calls;
      && |calls| == CeilDiv(videoLength, splitLength)
      && 2 <= |calls|
      && (forall n :: 0 <= n < |calls| ==> calls[n].start == Int(splitLength * n) && calls[n].duration == Int(splitLength))
  {
    var c := CeilDiv(videoLength, splitLength);
    CeilDivPositive(videoLength, splitLength);
    SegmentsUpToTiming(dir, base, ext, splitLength, c, c);
  }

  /**
   * The count cuts of a successful split cover the video: the first count - 1
   * end strictly inside it, and the last one reaches or passes its end.
   */
  lemma SecondsRunCovers(dir: string, base: string, ext: string, splitLength: int, videoLength: nat)
    requires 0 < splitLength && 0 < videoLength
    requires SecondsPlan(dir, base, ext, splitLength, videoLength).error == None
    ensures var count := |SecondsPlan(dir, base, ext, splitLength, videoLength).calls|;
      && (count - 1) * splitLength < videoLength <= count * splitLength
      && (forall n :: 0 <= n < count - 1 ==> splitLength * n + splitLength < videoLength)
  {
    SecondsRunShape(dir, base, ext, splitLength, videoLength);
    CeilDivBounds(videoLength, splitLength);
    EarlyMultiplesInside(videoLength, splitLength);
  }

  /** The run aborts as trivial exactly when the video is no longer than one segment. */
  lemma TrivialSplitIffShort(dir: string, base: string, ext: string, splitLength: int, videoLength: nat)
    requires 0 < splitLength
    ensures SecondsPlan(dir, base, ext, splitLength, videoLength) == Abort(TrivialSplit)
        <==> 0 < videoLength <= splitLength
  {
    CeilDivIsOne(videoLength, splitLength);
  }

  /** A zero-second video gives no segment and no error: the count 0 is not caught as trivial. */
  lemma EmptyVideoSplitsIntoNothing(dir: string, base: string, ext: string, splitLength: int)
    requires 0 < splitLength
    ensures SecondsPlan(dir, base, ext, splitLength, 0) == Run([], None)
  {
  }

  /** Segments i and j != i of one count get different names when the base has no slash. */
  lemma SegmentNamesDistinct(dir: string, base: string, ext: string, i: nat, j: nat, count: nat)
    requires '/' !in base && i != j
    ensures OutputPath(dir, SegmentName(base, i, count, ext)) != OutputPath(dir, SegmentName(base, j, count, ext))
  {
    var a, b := SegmentName(base, i, count, ext), SegmentName(base, j, count, ext);
    var di, dj := NatToString(i), NatToString(j);
    var rest := "-of-" + NatToString(count) + "." + ext;
    assert a == (base + "-") + di + rest;
    assert b == (base + "-") + dj + rest;
    if a == b {
      assert |di| == |dj|;
      assert di == a[|base| + 1..|base| + 1 + |di|];
      assert dj == b[|base| + 1..|base| + 1 + |dj|];
      NatToStringInjective(i, j);
    }
    assert a[0] != '/' && b[0] != '/' by {
      if base == [] {
        assert a[0] == '-' && b[0] == '-';
      } else {
        assert a[0] == base[0] && b[0] == base[0];
      }
    }
    OutputPathInjective(dir, a, b);
  }

  /**
   * The cuts of a split are named <base>-<n+1>-of-<count>.<ext> under the
   * output directory, and, the base name having no slash, no two cuts share
   * an output path.
   */
  lemma SegmentOutputsDistinct(dir: string, base: string, ext: string, splitLength: int, videoLength: nat)
    requires '/' !in base
    requires SecondsPlan(dir, base, ext, splitLength, videoLength).error == None
    ensures var calls := SecondsPlan(dir, base, ext, splitLength, videoLength).calls;
      && (forall n :: 0 <= n < |calls| ==> calls[n].output == OutputPath(dir, SegmentName(base, n + 1, |calls|, ext)))
      && (forall i, j :: 0 <= i < j < |calls| ==> calls[i].output != calls[j].output)
  {
    var c := CeilDiv(videoLength, splitLength);
    SegmentsUpToAt(dir, base, ext, splitLength, c, c);
    var calls := SegmentsUpTo(dir, base, ext, splitLength, c, c);
    forall i, j | 0 <= i < j < |calls| ensures calls[i].output != calls[j].output {
      SegmentNamesDistinct(dir, base, ext, i + 1, j + 1, c);
    }
  }

  /** A split of a file has pairwise distinct output paths: FileBase never holds a slash. */
  lemma SplitOutputsDistinct(filename: string, splitLength: int, outputDir: string, videoLength: nat)
    requires SecondsRun(filename, splitLength, outputDir, videoLength).error == None
    ensures var calls := SecondsRun(filename, splitLength, outputDir, videoLength).calls;
      forall i, j :: 0 <= i < j < |calls| ==> calls[i].output != calls[j].output
  {
    SegmentOutputsDistinct(ResolvedDir(filename, outputDir), FileBase(filename), FileExt(filename), splitLength, videoLength);
  }

  /** talk.mp4 has base name talk and extension mp4, and 25 seconds need three 10-second segments. */
  lemma TalkRunPlan()
    ensures SecondsRun("talk.mp4", 10, "out", 25) == Run(SegmentsUpTo("out", "talk", "mp4", 10, 3, 3), None)
  {
    TalkNameParts();
    assert CeilDiv(25, 10) == 3;
  }

  /** talk.mp4 splits into the file base talk and the extension mp4. */
  lemma TalkNameParts()
    ensures FileBase("talk.mp4") == "talk" && FileExt("talk.mp4") == "mp4"
  {
    RFindIsLast("talk.mp4", '/', -1);
    assert Basename("talk.mp4") == "talk.mp4";
    RFindIsLast("talk.mp4", '.', 4);
    assert LastComponent("talk.mp4") == "mp4";
    assert DropLastComponent("talk.mp4") == "talk";
  }

  /** The name of cut k of talk.mp4 (k from 0). */
  lemma TalkNameAt(k: nat)
    requires k < 3
    ensures SegmentName("talk", k + 1, 3, "mp4") == "talk-" + "123"[k..k + 1] + "-of-3.mp4"
  {
    assert NatToString(k + 1) == [Digit(k + 1)];
    assert NatToString(3) == "3";
    assert Digit(k + 1) == "123"[k];
  }

  /** Cut k of talk.mp4 (k from 0) under the directory out. */
  lemma TalkSegmentAt(k: nat)
    requires k < 3
    ensures SegmentAt("out", "talk", "mp4", 10, 3, k) ==
      Segment(Int(10 * k), Int(10), "out/talk-" + "123"[k..k + 1] + "-of-3.mp4")
  {
    var name := SegmentName("talk", k + 1, 3, "mp4");
    TalkNameAt(k);
    assert name[0] == 't';
    OutputPathUnder("out", name);
  }

  /** A 25-second talk.mp4 cut into 10-second segments gives three cuts, out/talk-k-of-3.mp4 for k = 1, 2, 3. */
  lemma ExampleThreeSegments()
    ensures var r := SecondsRun("talk.mp4", 10, "out", 25);
      && r.error == None
      && |r.calls| == 3
      && forall k :: 0 <= k < 3 ==>
           r.calls[k] == Segment(Int(10 * k), Int(10), "out/talk-" + "123"[k..k + 1] + "-of-3.mp4")
  {
    TalkRunPlan();
    SegmentsUpToAt("out", "talk", "mp4", 10, 3, 3);
    forall k | 0 <= k < 3
      ensures SegmentAt("out", "talk", "mp4", 10, 3, k) ==
        Segment(Int(10 * k), Int(10), "out/talk-" + "123"[k..k + 1] + "-of-3.mp4")
    {
      TalkSegmentAt(k);
    }
  }

  /** An 8-second video with 10-second segments is rejected before any cut. */
  lemma ExampleTooShort(dir: string, base: string, ext: string)
    ensures SecondsPlan(dir, base, ext, 10, 8) == Abort(TrivialSplit)
  {
  }

  // ---------------------------------------------------------------------------
  // Length resolution in main

  /** The two --chunk-strategy choices. */
  datatype Strategy = Eager | Even

  /** The command-line options that bear on the segment length; None is an option not given. */
  datatype SplitOptions = SplitOptions(
    splitLength: Option<int>,
    splitChunks: Option<int>,
    splitFilesize: Option<int>,
    filesizeFactor: real,
    chunkStrategy: Strategy)

  /** An option that is given and truthy (Python treats None and 0 alike here). */
  predicate Given(o: Option<int>) {
    o.Some? && o.value != 0
  }

  /** int(x): truncation toward zero. */
  function Trunc(x: real): (r: int)
    ensures 0.0 <= x ==> 0 <= r && r as real <= x < r as real + 1.0
    ensures x < 0.0 ==> r as real - 1.0 < x <= r as real
  {
    if x >= 0.0 then x.Floor else -((-x).Floor)
  }

  /** The byte target int(split_filesize * factor), or 0 when no --split-filesize is given. */
  function TargetBytes(o: SplitOptions): int {
    if Given(o.splitFilesize) then Trunc(o.splitFilesize.value as real * o.filesizeFactor) else 0
  }

  /** The chunk count in force: derived from the byte target under `even`, else the one given (0: none). */
  function ChunkCount(o: SplitOptions, fileSize: nat): int {
    var target := TargetBytes(o);
    if target != 0 && o.chunkStrategy == Even then CeilDiv(fileSize, target)
    else if Given(o.splitChunks) then o.splitChunks.value
    else 0
  }

  /** The eager length int(target / file_size * video_length), the time that holds `target` bytes at constant bitrate. */
  function EagerLength(target: int, videoLength: nat, fileSize: nat): int
    requires fileSize != 0
  {
    Trunc(target as real / fileSize as real * videoLength as real)
  }

  /**
   * The segment length main settles on, in priority order: an explicit
   * length; else ceildiv(video, chunks) for the chunk count in force; else,
   * with a byte target, the eager length; else no length at all.
   */
  function ResolvedLength(o: SplitOptions, videoLength: nat, fileSize: nat): (r: Result<int, SplitError>)
    ensures r.Success? ==> r.value != 0
    ensures r.Failure? ==> r.error in {MissingSplitParameter, DivisionByZero}
  {
    if Given(o.splitLength) then Success(o.splitLength.value)
    else
      var chunks := ChunkCount(o, fileSize);
      var byChunks := if chunks != 0 then CeilDiv(videoLength, chunks) else 0;
      var target := TargetBytes(o);
      if byChunks != 0 then Success(byChunks)
      else if target == 0 then Failure(MissingSplitParameter)
      else if fileSize == 0 then Failure(DivisionByZero)
      else if EagerLength(target, videoLength, fileSize) != 0 then Success(EagerLength(target, videoLength, fileSize))
      else Failure(MissingSplitParameter)
  }

  /** main's length resolution: the options are updated step by step, then checked. */
  method ResolveSplitLength(options: SplitOptions, videoLength: nat, fileSize: nat)
    returns (r: Result<int, SplitError>)
    ensures r == ResolvedLength(options, videoLength, fileSize)
  {
    var splitLength := options.splitLength;
    var splitChunks := options.splitChunks;
    if !Given(splitLength) {
      var splitFilesize: Option<int> := None;
      if Given(options.splitFilesize) {
        splitFilesize := Some(Trunc(options.splitFilesize.value as real * options.filesizeFactor));
      }
      assert Given(splitFilesize) <==> TargetBytes(options) != 0;
      assert Given(splitFilesize) ==> splitFilesize.value == TargetBytes(options);
      if Given(splitFilesize) && options.chunkStrategy == Even {
        splitChunks := Some(CeilDiv(fileSize, splitFilesize.value));
      }
      if Given(splitChunks) {
        splitLength := Some(CeilDiv(videoLength, splitChunks.value));
      }
      if !Given(splitLength) && Given(splitFilesize) {
        if fileSize == 0 {
          return Failure(DivisionByZero);
        }
        splitLength := Some(EagerLength(splitFilesize.value, videoLength, fileSize));
      }
    }
    if !Given(splitLength) {
      return Failure(MissingSplitParameter);
    }
    r := Success(splitLength.value);
  }

  /** An explicit length is used unchanged, whatever else is given. */
  lemma ExplicitLengthWins(o: SplitOptions, videoLength: nat, fileSize: nat)
    requires Given(o.splitLength)
    ensures ResolvedLength(o, videoLength, fileSize) == Success(o.splitLength.value)
  {
  }

  /**
   * A chunk count given on the command line, not overridden by `even`,
   * fixes the length at ceildiv(video, chunks), ahead of the eager length.
   */
  lemma ChunksGiveLength(o: SplitOptions, videoLength: nat, fileSize: nat)
    requires !Given(o.splitLength) && Given(o.splitChunks)
    requires !(TargetBytes(o) != 0 && o.chunkStrategy == Even)
    requires CeilDiv(videoLength, o.splitChunks.value) != 0
    ensures ResolvedLength(o, videoLength, fileSize) == Success(CeilDiv(videoLength, o.splitChunks.value))
  {
  }

  /** Under `even` with a byte target, the chunk count given on the command line is overridden. */
  lemma EvenOverridesChunks(o: SplitOptions, chunks: Option<int>, videoLength: nat, fileSize: nat)
    requires o.chunkStrategy == Even && TargetBytes(o) != 0
    ensures ResolvedLength(o.(splitChunks := chunks), videoLength, fileSize) == ResolvedLength(o, videoLength, fileSize)
  {
    var o' := o.(splitChunks := chunks);
    assert TargetBytes(o') == TargetBytes(o);
    assert ChunkCount(o', fileSize) == ChunkCount(o, fileSize);
  }

  /**
   * Cutting v seconds into pieces of ceildiv(v, c) seconds never makes more
   * than c pieces, and exactly c when c divides v.
   */
  lemma CeilDivRoundTrip(v: int, c: int)
    requires 0 < v && 0 < c
    ensures 1 <= CeilDiv(v, c)
    ensures CeilDiv(v, CeilDiv(v, c)) <= c
    ensures v % c == 0 ==> CeilDiv(v, CeilDiv(v, c)) == c
  {
    var l := CeilDiv(v, c);
    CeilDivPositive(v, c);
    var k := CeilDiv(v, l);
    CeilDivBounds(v, c);
    CeilDivBounds(v, l);
    assert (k - 1) * l < v <= l * c;
    MulLtCancel(k - 1, c, l);
    if v % c == 0 {
      var q := v / c;
      assert v == q * c;
      MulLtCancel(l - 1, q, c);
      if l > q { MulMono(q + 1, l, c); MulMono(q, l - 1, c); }
      assert l == q;
      if k < c { MulMono(k, c - 1, l); }
    }
  }

  /**
   * Under `even`, the chunk count is ceildiv(file_size, target) and the
   * length is ceildiv(video, chunks); splitting by that length never makes
   * more segments than chunks, and exactly as many when the chunk count
   * divides the video length.
   */
  lemma EvenStrategyMatchesChunks(o: SplitOptions, videoLength: nat, fileSize: nat)
    requires !Given(o.splitLength) && o.chunkStrategy == Even
    requires 0 < TargetBytes(o) && 0 < fileSize && 0 < videoLength
    ensures var chunks := CeilDiv(fileSize, TargetBytes(o));
      && 1 <= chunks
      && ResolvedLength(o, videoLength, fileSize) == Success(CeilDiv(videoLength, chunks))
      && 1 <= CeilDiv(videoLength, chunks)
      && CeilDiv(videoLength, CeilDiv(videoLength, chunks)) <= chunks
      && (videoLength % chunks == 0 ==> CeilDiv(videoLength, CeilDiv(videoLength, chunks)) == chunks)
  {
    var c := CeilDiv(fileSize, TargetBytes(o));
    CeilDivPositive(fileSize, TargetBytes(o));
    assert ChunkCount(o, fileSize) == c;
    CeilDivRoundTrip(videoLength, c);
  }

  /** Scaling bounds l <= x < u by a positive factor keeps them. */
  lemma ScaledFloorBounds(x: real, f: real, l: real, u: real)
    requires 0.0 < f && l <= x < u
    ensures l * f <= x * f < u * f
  {
  }

  /** (q * v) * f == t * v when q * f == t. */
  lemma DivScaleBack(q: real, v: real, f: real, t: real)
    requires q * f == t
    ensures (q * v) * f == t * v
  {
    calc {
      (q * v) * f;
      (q * f) * v;
      t * v;
    }
  }

  /** A product of non-negative reals is non-negative. */
  lemma NonNegProduct(a: real, b: real)
    requires 0.0 <= a && 0.0 <= b
    ensures 0.0 <= a * b
  {
  }

  /** Converting a product of integers to a real multiplies the converted factors. */
  lemma RealOfProduct(a: int, b: int)
    ensures (a * b) as real == a as real * b as real
  {
  }

  /** The eager length holds at most `target` bytes at the file's average bitrate, and one second more would exceed it. */
  lemma EagerLengthBounds(target: int, videoLength: nat, fileSize: nat)
    requires 0 < target && 0 < fileSize
    ensures var l := EagerLength(target, videoLength, fileSize);
      && 0 <= l
      && l * fileSize <= target * videoLength < (l + 1) * fileSize
  {
    var t, fs, v := target as real, fileSize as real, videoLength as real;
    var q := t / fs;
    var x := q * v;
    var l := EagerLength(target, videoLength, fileSize);
    assert q * fs == t;
    DivScaleBack(q, v, fs, t);
    assert 0.0 <= q;
    NonNegProduct(q, v);
    assert 0.0 <= x;
    assert l as real <= x < l as real + 1.0;
    assert (l + 1) as real == l as real + 1.0;
    ScaledFloorBounds(x, fs, l as real, (l + 1) as real);
    RealOfProduct(l, fileSize);
    RealOfProduct(l + 1, fileSize);
    RealOfProduct(target, videoLength);
  }

  /**
   * Under `eager`, with no chunk count, main falls back to the eager length,
   * and reports a missing parameter when that length truncates to zero.
   */
  lemma EagerStaysWithinTarget(o: SplitOptions, videoLength: nat, fileSize: nat)
    requires !Given(o.splitLength) && o.chunkStrategy == Eager && !Given(o.splitChunks)
    requires 0 < TargetBytes(o) && 0 < fileSize
    ensures var l := EagerLength(TargetBytes(o), videoLength, fileSize);
      && 0 <= l
      && l * fileSize <= TargetBytes(o) * videoLength < (l + 1) * fileSize
      && ResolvedLength(o, videoLength, fileSize) == (if l == 0 then Failure(MissingSplitParameter) else Success(l))
  {
    EagerLengthBounds(TargetBytes(o), videoLength, fileSize);
    assert ChunkCount(o, fileSize) == 0;
  }
}
