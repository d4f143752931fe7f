/**
 * What both split paths of ffmpeg-split.py produce: one transcoder cut per
 * segment, each given by its start, its duration and its output path, and
 * the reason a run stopped, if it did.
 */
module Segments {
  import opened Wrappers
  import opened PathText

  /** A value as a parsed manifest or the planner hands it to str(): JSON numbers, strings or null. */
  datatype Scalar = Int(i: int) | Float(x: real) | Text(s: string) | Null
  {
    /** Python truthiness: zero, the empty string and None are false. */
    predicate Truthy() {
      match this
      case Int(i) => i != 0
      case Float(x) => x != 0.0
      case Text(s) => s != ""
      case Null => false
    }
  }

  /** The arguments `-ss <start> -t <duration> <output>` of one transcoder cut. */
  datatype Segment = Segment(start: Scalar, duration: Scalar, output: string)

  /** Which parser read the manifest; it selects the schema hint of a malformed entry. */
  datatype ManifestFormat = Json | Csv

  /** Why a split run stops. */
  datatype SplitError =
    | InvalidLength(length: int)              // a negative split length
    | DivisionByZero                          // a division by a zero length, chunk count or file size
    | TrivialSplit                            // the video fits in one segment
    | MissingSplitParameter                   // no segment length could be derived
    | ManifestNotFound                        // the manifest file does not exist
    | NoInputFile                             // no input file name to cut from
    | UnsupportedManifest(manifestType: string)
    | MalformedEntry(format: ManifestFormat, key: string)
    | MissingClipKey(key: string)             // a structured clip lacks start_time or length
    | RenameNotText                           // rename_to is not a string
    | NotAnEntry                              // the manifest object itself is iterated as entries

  /** The transcoder cuts issued, in order, and the error that ended the run early, if any. */
  datatype Run = Run(calls: seq<Segment>, error: Option<SplitError>)

  /** A run that stops before issuing any cut. */
  function Abort(e: SplitError): Run {
    Run([], Some(e))
  }

  /** The output path of a cut: the name joined under the output directory when there is one. */
  function OutputPath(dir: string, name: string): (r: string)
    ensures dir == "" ==> r == name
  {
    if dir == "" then name else PathJoin(dir, name)
  }

  /** A relative name goes under a directory that does not end in a slash after one added slash. */
  lemma OutputPathUnder(dir: string, name: string)
    requires dir != "" && dir[|dir| - 1] != '/'
    requires name == [] || name[0] != '/'
    ensures OutputPath(dir, name) == dir + "/" + name
  {
  }

  /** Two different names that do not start with a slash give two different output paths. */
  lemma OutputPathInjective(dir: string, a: string, b: string)
    requires a != b
    requires (a == [] || a[0] != '/') && (b == [] || b[0] != '/')
    ensures OutputPath(dir, a) != OutputPath(dir, b)
  {
    if dir != "" && dir[|dir| - 1] != '/' {
      assert OutputPath(dir, a)[|dir| + 1..] == a;
      assert OutputPath(dir, b)[|dir| + 1..] == b;
    } else if dir != "" {
      assert OutputPath(dir, a)[|dir|..] == a;
      assert OutputPath(dir, b)[|dir|..] == b;
    }
  }

  /** The default output directory `<parent>/Clip-<stem>` of an input file. */
  function DefaultOutputDir(filename: string): (r: string)
    ensures r != ""
  {
    PathDiv(Parent(filename), "Clip-" + Stem(filename))
  }

  /** No two slashes in a row: the form pathlib normalises paths to. */
  predicate NoDoubleSlash(p: string) {
    forall k :: 0 < k < |p| && p[k] == '/' ==> p[k - 1] != '/'
  }

  /** The default output directory is a sibling of the input file named Clip-<stem>. */
  lemma DefaultOutputDirIsSibling(filename: string)
    requires NoDoubleSlash(filename)
    ensures Parent(DefaultOutputDir(filename)) == Parent(filename)
    ensures Basename(DefaultOutputDir(filename)) == "Clip-" + Stem(filename)
  {
    var parent, child := Parent(filename), "Clip-" + Stem(filename);
    assert '/' !in child;
    var d := DefaultOutputDir(filename);
    var i := RFind(filename, '/');
    if parent == "." {
      RFindIsLast(d, '/', -1);
    } else if parent == "/" {
      assert d == "/" + child;
      RFindIsLast(d, '/', 0);
    } else {
      assert 0 < i && parent == filename[..i];
      assert filename[i - 1] != '/';
      assert d == parent + "/" + child;
      RFindIsLast(d, '/', i);
      assert d[..i] == parent;
    }
  }
}
