/**
 * The string and path operations the two scripts rely on, over normalised
 * POSIX paths: str.split(".") and ".".join, the `in` substring test,
 * str(int), os.path.basename, os.path.join, and the pathlib attributes
 * name, parent, stem and suffix.
 */
module PathText {

  /** Index of the last occurrence of `c` in `s`, or -1 when there is none. */
  function RFind(s: string, c: char): (r: int)
    ensures -1 <= r < |s|
    ensures r >= 0 ==> s[r] == c
    ensures forall j :: r < j < |s| ==> s[j] != c
  {
    if s == [] then -1
    else if s[|s| - 1] == c then |s| - 1
    else RFind(s[..|s| - 1], c)
  }

  /** The postcondition of RFind determines its value: the last occurrence. */
  lemma RFindIsLast(s: string, c: char, k: int)
    requires k == -1 || (0 <= k < |s| && s[k] == c)
    requires forall j :: k < j < |s| ==> s[j] != c
    ensures RFind(s, c) == k
  {
  }

  /** Text without `c` appended after `s` leaves the last `c` where it was. */
  lemma {:induction false} RFindAppend(s: string, t: string, c: char)
    requires c !in t
    ensures RFind(s + t, c) == RFind(s, c)
    decreases |t|
  {
    if t == [] {
      assert s + t == s;
    } else {
      var u := s + t;
      assert u[|u| - 1] == t[|t| - 1];
      assert u[..|u| - 1] == s + t[..|t| - 1];
      RFindAppend(s, t[..|t| - 1], c);
    }
  }

  /** The text after the last `c` in `s`, or all of `s` when there is none. */
  function AfterLast(s: string, c: char): (r: string)
    ensures c !in r
    ensures |r| <= |s| && r == s[|s| - |r|..]
  {
    s[RFind(s, c) + 1..]
  }

  /** s.split(".")[-1]: the text after the last dot, or all of `s`. */
  function LastComponent(s: string): (r: string)
    ensures '.' !in r
  {
    AfterLast(s, '.')
  }

  /** ".".join(s.split(".")[:-1]): the text before the last dot, or "". */
  function DropLastComponent(s: string): string {
    var i := RFind(s, '.');
    if i < 0 then "" else s[..i]
  }

  /** Splitting on the last dot and joining the two parts again gives `s` back. */
  lemma SplitJoinRoundTrip(s: string)
    requires '.' in s
    ensures DropLastComponent(s) + "." + LastComponent(s) == s
  {
    var i := RFind(s, '.');
    assert s == s[..i] + [s[i]] + s[i + 1..];
  }

  /** A name built as b + "." + e, with e free of dots, splits back into b and e. */
  lemma DottedName(b: string, e: string)
    requires '.' !in e
    ensures LastComponent(b + "." + e) == e
    ensures DropLastComponent(b + "." + e) == b
  {
    var s := b + "." + e;
    forall j | |b| < j < |s| ensures s[j] != '.' {
      assert s[j] == e[j - |b| - 1];
    }
    RFindIsLast(s, '.', |b|);
  }

  /** The prefix test `n` is a prefix of `h`. */
  predicate IsPrefix(n: string, h: string) {
    |n| <= |h| && h[..|n|] == n
  }

  /** Python's `needle in hay` for strings: `needle` occurs in `hay` as a substring. */
  predicate Contains(hay: string, needle: string)
    decreases |hay|
  {
    IsPrefix(needle, hay) || (hay != [] && Contains(hay[1..], needle))
  }

  /** A string contains each of its suffixes (by induction on what precedes it). */
  lemma {:induction false} ContainsSuffix(x: string, n: string)
    ensures Contains(x + n, n)
    decreases |x|
  {
    if x == [] {
      assert x + n == n;
    } else {
      assert (x + n)[1..] == x[1..] + n;
      ContainsSuffix(x[1..], n);
    }
  }

  /** Every occurrence lies inside the haystack: `needle` is no longer than `hay`. */
  lemma {:induction false} ContainsShorter(hay: string, needle: string)
    requires Contains(hay, needle)
    ensures |needle| <= |hay|
    decreases |hay|
  {
    if !IsPrefix(needle, hay) {
      ContainsShorter(hay[1..], needle);
    }
  }

  /** The decimal digit for d. */
  function Digit(d: nat): char
    requires d < 10
  {
    ('0' as int + d) as char
  }

  /** str(n) for a non-negative int: decimal digits without leading zeros. */
  function NatToString(n: nat): (r: string)
    ensures 0 < |r|
    ensures n < 10 <==> |r| == 1
  {
    if n < 10 then [Digit(n)] else NatToString(n / 10) + [Digit(n % 10)]
  }

  /** str(n) holds decimal digits only. */
  lemma {:induction false} NatToStringDigits(n: nat)
    ensures forall k :: 0 <= k < |NatToString(n)| ==> '0' <= NatToString(n)[k] <= '9'
  {
    if n >= 10 {
      NatToStringDigits(n / 10);
    }
  }

  /** Different numbers are written differently. */
  lemma {:induction false} NatToStringInjective(m: nat, n: nat)
    requires NatToString(m) == NatToString(n)
    ensures m == n
    decreases m
  {
    var s := NatToString(m);
    if m >= 10 && n >= 10 {
      assert s[..|s| - 1] == NatToString(m / 10);
      assert s[..|s| - 1] == NatToString(n / 10);
      NatToStringInjective(m / 10, n / 10);
      assert s[|s| - 1] == Digit(m % 10) == Digit(n % 10);
    }
  }

  /** os.path.basename: the text after the last slash. */
  function Basename(p: string): (r: string)
    ensures '/' !in r
  {
    AfterLast(p, '/')
  }

  /** os.path.join(a, b) for two POSIX components. */
  function PathJoin(a: string, b: string): string {
    if b != [] && b[0] == '/' then b
    else if a == [] || a[|a| - 1] == '/' then a + b
    else a + "/" + b
  }

  /** Path(p).parent: "." for a bare name, "/" for an entry of the root. */
  function Parent(p: string): (r: string)
    ensures r != []
  {
    var i := RFind(p, '/');
    if i < 0 then "." else if i == 0 then "/" else p[..i]
  }

  /** pathlib's rule: a name has a suffix when its last dot is neither first nor last. */
  predicate HasSuffixDot(name: string) {
    0 < RFind(name, '.') < |name| - 1
  }

  /** Path(p).suffix: the final dot and what follows it in the last component, or "". */
  function Suffix(p: string): string {
    var name := Basename(p);
    if HasSuffixDot(name) then name[RFind(name, '.')..] else ""
  }

  /** Path(p).stem: the last component without its suffix. */
  function Stem(p: string): (r: string)
    ensures '/' !in r
  {
    var name := Basename(p);
    if HasSuffixDot(name) then name[..RFind(name, '.')] else name
  }

  /** Path(parent) / child, for a child component without slashes. */
  function PathDiv(parent: string, child: string): string {
    if parent == "." then child
    else if parent != [] && parent[|parent| - 1] == '/' then parent + child
    else parent + "/" + child
  }

  /** Path(p).absolute(), with the working directory `cwd` passed in. */
  function Absolute(cwd: string, p: string): string {
    if p == "" then cwd else PathJoin(cwd, p)
  }
}
