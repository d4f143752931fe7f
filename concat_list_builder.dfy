/**
 * merge_videos of ffmpeg-merge.py up to the transcoder call: the concat
 * demuxer list, one quoted line per input in input order, and the output
 * path, which borrows the first input's suffix when it has none of its own.
 */
module ConcatListBuilder {
  import opened Wrappers
  import opened PathText
  import opened CompatibilityChecker

  /** What a single quote becomes inside a quoted list entry: close, escaped quote, reopen. */
  const EscapedQuote: string := "'\\''"

  /** str.replace("'", "'\\''"): every single quote is escaped, every other character kept. */
  function Escape(s: string): string {
    if s == [] then []
    else (if s[0] == '\'' then EscapedQuote else [s[0]]) + Escape(s[1..])
  }

  /** Reads an escaped entry back: each escaped quote becomes one quote again. */
  function Unescape(s: string): string
    decreases |s|
  {
    if s == [] then []
    else if |s| >= 4 && s[..4] == EscapedQuote then "'" + Unescape(s[4..])
    else [s[0]] + Unescape(s[1..])
  }

  /** The concat-demuxer line for one path: `file '<escaped path>'` and a newline. */
  function ConcatLine(path: string): string {
    "file '" + Escape(path) + "'\n"
  }

  /** Reads one list line back to the path it names, if it has the line's shape. */
  function ParseLine(line: string): Option<string> {
    if |line| >= 8 && line[..6] == "file '" && line[|line| - 2..] == "'\n" then Some(Unescape(line[6..|line| - 2]))
    else None
  }

  /** The lines of concat_list.txt: one per info, for its absolute path, in input order. */
  function ConcatList(cwd: string, infos: seq<Info>): seq<string> {
    seq(|infos|, k requires 0 <= k < |infos| => ConcatLine(Absolute(cwd, infos[k].filePath)))
  }

  /** The extension the output borrows: the first input's suffix, or .mp4 when it has none. */
  function BorrowedExt(firstPath: string): string {
    if Suffix(firstPath) == "" then ".mp4" else Suffix(firstPath)
  }

  /** The output path: unchanged when it has a suffix, else extended by the borrowed extension. */
  function MergeOutput(firstPath: string, outputPath: string): string {
    if Suffix(outputPath) == "" then outputPath + BorrowedExt(firstPath) else outputPath
  }

  /**
   * merge_videos: write one line per info, resolve the output path, run the
   * transcoder (whose success is `transcoderSucceeds`) and remove the list
   * on either outcome. `cwd` is the working directory absolute() resolves
   * against.
   */
  method MergeVideos(cwd: string, videoInfos: seq<Info>, outputPath: string, transcoderSucceeds: bool)
    returns (listLines: seq<string>, finalOutput: string, success: bool, ghost listRemoved: bool)
    requires |videoInfos| > 0
    ensures listLines == ConcatList(cwd, videoInfos)
    ensures finalOutput == MergeOutput(videoInfos[0].filePath, outputPath)
    ensures success == transcoderSucceeds
    ensures listRemoved
  {
    listLines := [];
    var i := 0;
    while i < |videoInfos|
      invariant 0 <= i <= |videoInfos|
      invariant |listLines| == i
      invariant forall k :: 0 <= k < i ==> listLines[k] == ConcatLine(Absolute(cwd, videoInfos[k].filePath))
    {
      var filePath := Absolute(cwd, videoInfos[i].filePath);
      var escapedPath := Escape(filePath);
      listLines := listLines + ["file '" + escapedPath + "'\n"];
      i := i + 1;
    }
    var ext := Suffix(videoInfos[0].filePath);
    if ext == "" {
      ext := ".mp4";
    }
    finalOutput := outputPath;
    if Suffix(finalOutput) == "" {
      finalOutput := finalOutput + ext;
    }
    if transcoderSucceeds {
      listRemoved := true;
      success := true;
    } else {
      listRemoved := true;
      success := false;
    }
  }

  // ---------------------------------------------------------------------------
  // Escaping

  /** Escaping distributes over concatenation. */
  lemma {:induction false} EscapeAppend(a: string, b: string)
    ensures Escape(a + b) == Escape(a) + Escape(b)
    decreases |a|
  {
    if a != [] {
      assert (a + b)[0] == a[0];
      assert (a + b)[1..] == a[1..] + b;
      EscapeAppend(a[1..], b);
    } else {
      assert a + b == b;
    }
  }

  /** A text without quotes is not changed. */
  lemma {:induction false} EscapeNoQuote(s: string)
    requires '\'' !in s
    ensures Escape(s) == s
  {
    if s != [] {
      EscapeNoQuote(s[1..]);
    }
  }

  /** Escaping is undone by reading back: no path is lost or altered. */
  lemma {:induction false} EscapeRoundTrip(s: string)
    ensures Unescape(Escape(s)) == s
  {
    if s != [] {
      EscapeRoundTrip(s[1..]);
      var rest := Escape(s[1..]);
      if s[0] == '\'' {
        assert (EscapedQuote + rest)[..4] == EscapedQuote;
        assert (EscapedQuote + rest)[4..] == rest;
      } else {
        assert ([s[0]] + rest)[1..] == rest;
      }
    }
  }

  /** Every quote grows into four characters and nothing else changes length. */
  lemma {:induction false} EscapeLength(s: string)
    ensures |Escape(s)| == |s| + 3 * multiset(s)['\'']
  {
    if s != [] {
      EscapeLength(s[1..]);
      assert s == [s[0]] + s[1..];
      assert multiset(s) == multiset([s[0]]) + multiset(s[1..]);
    }
  }

  /** A quote between two quote-free texts becomes an escaped quote; the texts around it are kept. */
  lemma QuoteBetweenEscaped(x: string, y: string)
    requires '\'' !in x && '\'' !in y
    ensures Escape(x + "'" + y) == x + EscapedQuote + y
  {
    EscapeAppend(x + "'", y);
    EscapeAppend(x, "'");
    EscapeNoQuote(x);
    EscapeNoQuote(y);
  }

  /** a'b is listed as a'\''b. */
  lemma ExampleEscape()
    ensures Escape("a'b") == "a'\\''b"
  {
    QuoteBetweenEscaped("a", "b");
    assert "a" + "'" + "b" == "a'b";
  }

  // ---------------------------------------------------------------------------
  // The list

  /** Each list line reads back to exactly the path it was written for. */
  lemma LineRoundTrip(path: string)
    ensures ParseLine(ConcatLine(path)) == Some(path)
  {
    var e := Escape(path);
    var line := ConcatLine(path);
    assert line[..6] == "file '";
    assert line[|line| - 2..] == "'\n";
    assert line[6..|line| - 2] == e;
    EscapeRoundTrip(path);
  }

  /** The list has one line per info, in input order, naming that info's absolute path. */
  lemma ListNamesEveryInput(cwd: string, infos: seq<Info>)
    ensures |ConcatList(cwd, infos)| == |infos|
    ensures forall k :: 0 <= k < |infos| ==> ParseLine(ConcatList(cwd, infos)[k]) == Some(Absolute(cwd, infos[k].filePath))
  {
    forall k | 0 <= k < |infos|
      ensures ParseLine(ConcatList(cwd, infos)[k]) == Some(Absolute(cwd, infos[k].filePath))
    {
      LineRoundTrip(Absolute(cwd, infos[k].filePath));
    }
  }

  // ---------------------------------------------------------------------------
  // The output path

  /** The shape of a pathlib suffix: a dot, then at least one character that is neither a dot nor a slash. */
  predicate SuffixShaped(e: string) {
    2 <= |e| && e[0] == '.' && '/' !in e && forall k :: 1 <= k < |e| ==> e[k] != '.'
  }

  /** A non-empty suffix has a suffix's shape. */
  lemma SuffixShape(p: string)
    requires Suffix(p) != ""
    ensures SuffixShaped(Suffix(p))
  {
    var name := Basename(p);
    var i := RFind(name, '.');
    assert HasSuffixDot(name);
    assert 0 < i < |name| - 1 && name[i] == '.';
    assert forall k :: i < k < |name| ==> name[k] != '.';
    assert '/' !in name;
    var e := name[i..];
    assert Suffix(p) == e;
    assert 2 <= |e| && e[0] == '.';
    forall k | 0 <= k < |e|
      ensures e[k] != '/'
      ensures 1 <= k ==> e[k] != '.'
    {
      assert e[k] == name[i + k];
    }
  }

  /** The borrowed extension always has a suffix's shape. */
  lemma BorrowedExtShape(firstPath: string)
    ensures SuffixShaped(BorrowedExt(firstPath))
  {
    if Suffix(firstPath) != "" {
      SuffixShape(firstPath);
    }
  }

  /** Appending slash-free text extends the last component. */
  lemma BasenameOfAppended(p: string, e: string)
    requires '/' !in e
    ensures Basename(p + e) == Basename(p) + e
  {
    var k := RFind(p, '/');
    RFindAppend(p, e, '/');
    assert (p + e)[k + 1..] == p[k + 1..] + e;
  }

  /** A non-empty name followed by a suffix-shaped extension has that extension as its last dot part. */
  lemma LastDotOfExtended(b: string, e: string)
    requires b != "" && SuffixShaped(e)
    ensures RFind(b + e, '.') == |b|
  {
    var name := b + e;
    forall j | |b| < j < |name| ensures name[j] != '.' {
      assert name[j] == e[j - |b|];
    }
    RFindIsLast(name, '.', |b|);
  }

  /** Appending a suffix-shaped extension to a path with a non-empty last component gives it that suffix. */
  lemma SuffixOfAppended(p: string, e: string)
    requires Basename(p) != "" && SuffixShaped(e)
    ensures Suffix(p + e) == e
  {
    var b := Basename(p);
    BasenameOfAppended(p, e);
    LastDotOfExtended(b, e);
    assert (b + e)[|b|..] == e;
  }

  /** An output path that has a suffix is used as given. */
  lemma OutputWithSuffixKept(firstPath: string, outputPath: string)
    requires Suffix(outputPath) != ""
    ensures MergeOutput(firstPath, outputPath) == outputPath
  {
  }

  /**
   * An output path without a suffix (but with a last component) is extended
   * by the borrowed extension, which then is its suffix.
   */
  lemma OutputWithoutSuffixExtended(firstPath: string, outputPath: string)
    requires Suffix(outputPath) == "" && Basename(outputPath) != ""
    ensures MergeOutput(firstPath, outputPath) == outputPath + BorrowedExt(firstPath)
    ensures Suffix(MergeOutput(firstPath, outputPath)) == BorrowedExt(firstPath)
  {
    BorrowedExtShape(firstPath);
    SuffixOfAppended(outputPath, BorrowedExt(firstPath));
  }

  /** Resolving the output path twice changes nothing more. */
  lemma MergeOutputIdempotent(firstPath: string, outputPath: string)
    requires Basename(outputPath) != ""
    ensures MergeOutput(firstPath, MergeOutput(firstPath, outputPath)) == MergeOutput(firstPath, outputPath)
  {
    if Suffix(outputPath) == "" {
      OutputWithoutSuffixExtended(firstPath, outputPath);
    }
  }
}
