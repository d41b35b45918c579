/**
 * Models of the small pieces of Ruby's String and File API that the droxi
 * sources lean on: ASCII `downcase`, whitespace `split`, `start_with?`,
 * `end_with?`, `chomp`, `partition`/`rpartition`, `File.dirname` and
 * `File.basename` (Unix rules).
 */
module Strings {
  import opened Wrappers

  // ---------------------------------------------------------------------
  // Characters
  // ---------------------------------------------------------------------

  /** ASCII lower-casing of one character (Ruby's `downcase` restricted to ASCII). */
  function LowerChar(c: char): char {
    if 'A' <= c <= 'Z' then (c as int + 32) as char else c
  }

  /** The characters Ruby's `String#split` with no argument treats as separators. */
  predicate IsSpace(c: char) {
    c == ' ' || c == '\t' || c == '\n' || c == '\r' || c == 12 as char || c == 11 as char
  }

  predicate NoSpace(s: string) {
    forall i :: 0 <= i < |s| ==> !IsSpace(s[i])
  }

  /** `String#downcase`, ASCII only. */
  function Lower(s: string): (r: string)
    ensures |r| == |s|
    ensures forall i :: 0 <= i < |s| ==> r[i] == LowerChar(s[i])
  {
    seq(|s|, i requires 0 <= i < |s| => LowerChar(s[i]))
  }

  lemma LowerIdempotent(s: string)
    ensures Lower(Lower(s)) == Lower(s)
  {
  }

  lemma LowerKeepsSlashes(s: string)
    ensures forall i :: 0 <= i < |s| ==> (Lower(s)[i] == '/' <==> s[i] == '/')
  {
  }

  lemma LowerAppend(a: string, b: string)
    ensures Lower(a + b) == Lower(a) + Lower(b)
  {
  }

  // ---------------------------------------------------------------------
  // Prefixes, suffixes, occurrences
  // ---------------------------------------------------------------------

  predicate StartsWith(s: string, p: string) {
    |p| <= |s| && s[..|p|] == p
  }

  predicate EndsWith(s: string, p: string) {
    |p| <= |s| && s[|s| - |p|..] == p
  }

  predicate Contains(s: string, c: char) {
    exists i :: 0 <= i < |s| && s[i] == c
  }

  /** `String#chomp(suffix)`: drop one trailing `suffix` if present. */
  function Chomp(s: string, suffix: string): (r: string)
    ensures EndsWith(s, suffix) ==> r + suffix == s
    ensures !EndsWith(s, suffix) ==> r == s
  {
    if EndsWith(s, suffix) then s[..|s| - |suffix|] else s
  }

  /** Index of the first occurrence of `c` at or after `from`. */
  function IndexFrom(s: string, c: char, from: nat): (r: Option<nat>)
    decreases |s| - from
    ensures r.Some? ==> from <= r.value < |s| && s[r.value] == c
    ensures r.Some? ==> forall j :: from <= j < r.value ==> s[j] != c
    ensures r.None? ==> forall j :: from <= j < |s| ==> s[j] != c
  {
    if from >= |s| then None
    else if s[from] == c then Some(from)
    else IndexFrom(s, c, from + 1)
  }

  /** Index of the last occurrence of `c` in `s`. */
  function LastIndex(s: string, c: char): (r: Option<nat>)
    ensures r.Some? ==> r.value < |s| && s[r.value] == c
    ensures r.Some? ==> forall j :: r.value < j < |s| ==> s[j] != c
    ensures r.None? ==> forall j :: 0 <= j < |s| ==> s[j] != c
  {
    if s == [] then None
    else if s[|s| - 1] == c then Some(|s| - 1)
    else LastIndex(s[..|s| - 1], c)
  }

  /** `String#partition(c)`: text before the first `c` and the text after it. */
  function Partition(s: string, c: char): (r: (string, string))
    ensures Contains(s, c) ==> r.0 + [c] + r.1 == s && !Contains(r.0, c)
    ensures !Contains(s, c) ==> r == (s, "")
  {
    match IndexFrom(s, c, 0)
    case Some(i) => (s[..i], s[i + 1..])
    case None => (s, "")
  }

  /** `String#rpartition(c)`: text before the last `c` and the text after it. */
  function RPartition(s: string, c: char): (r: (string, string))
    ensures Contains(s, c) ==> r.0 + [c] + r.1 == s && !Contains(r.1, c)
    ensures !Contains(s, c) ==> r == ("", s)
  {
    match LastIndex(s, c)
    case Some(i) => (s[..i], s[i + 1..])
    case None => ("", s)
  }

  /** Everything of `s` up to and including its last `/`, or "" when it has none. */
  function PrefixThroughSlash(s: string): (r: string)
    ensures StartsWith(s, r)
    ensures r == [] || r[|r| - 1] == '/'
  {
    if Contains(s, '/') then RPartition(s, '/').0 + "/" else ""
  }

  // ---------------------------------------------------------------------
  // Joining and splitting
  // ---------------------------------------------------------------------

  /** `Array#join(sep)`. */
  function Join(parts: seq<string>, sep: string): string {
    if parts == [] then ""
    else if |parts| == 1 then parts[0]
    else parts[0] + sep + Join(parts[1..], sep)
  }

  /** `Array#join` with no separator. */
  function Concat(parts: seq<string>): string {
    if parts == [] then "" else parts[0] + Concat(parts[1..])
  }

  /** No piece holds the separator `c`. */
  predicate Separated(r: seq<string>, c: char) {
    forall i :: 0 <= i < |r| ==> !Contains(r[i], c)
  }

  /** The pieces of `s` between its occurrences of `c`, empty pieces included. */
  function Fields(s: string, c: char): (r: seq<string>)
    decreases |s|
    ensures |r| >= 1
    ensures Join(r, [c]) == s
    ensures Separated(r, c)
    ensures r[|r| - 1] == [] <==> (s == [] || s[|s| - 1] == c)
  {
    match IndexFrom(s, c, 0)
    case None =>
      assert s != [] ==> s[|s| - 1] != c;
      [s]
    case Some(i) =>
      var t := s[i + 1..];
      var rest := Fields(t, c);
      var r := [s[..i]] + rest;
      FieldsConsJoin(s, c, i, rest, r);
      FieldsConsSeparated(s, c, i, rest, r);
      FieldsConsLast(s, c, i, t, rest, r);
      r
  }

  /** The first piece, up to the first `c`, joined to the pieces of the rest. */
  lemma FieldsConsJoin(s: string, c: char, i: nat, rest: seq<string>, r: seq<string>)
    requires i < |s| && s[i] == c && |rest| >= 1 && Join(rest, [c]) == s[i + 1..]
    requires r == [s[..i]] + rest
    ensures Join(r, [c]) == s
  {
    assert r[1..] == rest;
    assert s == s[..i] + [c] + s[i + 1..];
  }

  /** No piece holds `c` when the first piece stops at the first `c`. */
  lemma FieldsConsSeparated(s: string, c: char, i: nat, rest: seq<string>, r: seq<string>)
    requires i <= |s| && forall j :: 0 <= j < i ==> s[j] != c
    requires Separated(rest, c)
    requires r == [s[..i]] + rest
    ensures Separated(r, c)
  {
    assert !Contains(s[..i], c);
    forall k | 1 <= k < |r| ensures !Contains(r[k], c) {
      assert r[k] == rest[k - 1];
    }
  }

  /** The last piece is the last piece of the rest. */
  lemma FieldsConsLast(s: string, c: char, i: nat, t: string, rest: seq<string>, r: seq<string>)
    requires i < |s| && s[i] == c && t == s[i + 1..] && |rest| >= 1
    requires rest[|rest| - 1] == [] <==> (t == [] || t[|t| - 1] == c)
    requires r == [s[..i]] + rest
    ensures r[|r| - 1] == [] <==> (s == [] || s[|s| - 1] == c)
  {
    assert r[|r| - 1] == rest[|rest| - 1];
    assert t != [] ==> t[|t| - 1] == s[|s| - 1];
  }

  /** Drop the trailing empty strings of a list. */
  function TrimEmpty(fs: seq<string>): (r: seq<string>)
    ensures r <= fs
    ensures r == [] || r[|r| - 1] != ""
    ensures forall i :: |r| <= i < |fs| ==> fs[i] == ""
  {
    if fs != [] && fs[|fs| - 1] == "" then TrimEmpty(fs[..|fs| - 1]) else fs
  }

  /** `String#split(c)` for a one-character separator: the fields, with the
      trailing empty ones removed. */
  function Split(s: string, c: char): (r: seq<string>)
    ensures forall i :: 0 <= i < |r| ==> !Contains(r[i], c)
    ensures r == [] || r[|r| - 1] != ""
  {
    TrimEmpty(Fields(s, c))
  }

  /** The longest prefix of `s` that holds no whitespace. */
  function Word(s: string): (w: string)
    ensures StartsWith(s, w) && NoSpace(w)
    ensures |w| < |s| ==> IsSpace(s[|w|])
  {
    if s == [] || IsSpace(s[0]) then "" else [s[0]] + Word(s[1..])
  }

  /** `String#split` with no argument: the maximal runs of non-whitespace. */
  function SplitWs(s: string): (r: seq<string>)
    decreases |s|
    ensures forall i :: 0 <= i < |r| ==> r[i] != [] && NoSpace(r[i])
  {
    if s == [] then []
    else if IsSpace(s[0]) then SplitWs(s[1..])
    else
      var w := Word(s);
      [w] + SplitWs(s[|w|..])
  }

  lemma WordOfNoSpace(x: string, rest: string)
    requires NoSpace(x)
    requires rest == [] || IsSpace(rest[0])
    ensures Word(x + rest) == x
  {
    if x != [] {
      assert (x + rest)[1..] == x[1..] + rest;
      WordOfNoSpace(x[1..], rest);
    }
  }

  /** Splitting a run of non-space text followed by one space and more text. */
  lemma {:induction false} SplitWsCons(x: string, rest: string)
    requires x != [] && NoSpace(x)
    ensures SplitWs(x + " " + rest) == [x] + SplitWs(rest)
    ensures SplitWs(x) == [x]
  {
    WordOfNoSpace(x, " " + rest);
    assert x + " " + rest == x + (" " + rest);
    assert (x + " " + rest)[|x|..] == " " + rest;
    assert (" " + rest)[1..] == rest;
    WordOfNoSpace(x, "");
    assert x + "" == x;
    assert x[|x|..] == [];
  }

  /** `String#squeeze(' ')`: collapse runs of spaces into one. */
  function Squeeze(s: string): (r: string)
    ensures forall i :: 0 <= i < |r| - 1 ==> !(r[i] == ' ' && r[i + 1] == ' ')
    ensures |r| <= |s|
    ensures s != [] ==> r != [] && r[0] == s[0]
  {
    if |s| <= 1 then s
    else if s[0] == ' ' && s[1] == ' ' then Squeeze(s[1..])
    else [s[0]] + Squeeze(s[1..])
  }

  /** `String#tr(chars, '')`: delete every character listed in `del`. */
  function Delete(s: string, del: set<char>): (r: string)
    ensures forall i :: 0 <= i < |r| ==> r[i] !in del
    ensures forall c :: c !in del ==> multiset(r)[c] == multiset(s)[c]
  {
    if s == [] then ""
    else if s[0] in del then
      assert s == [s[0]] + s[1..];
      Delete(s[1..], del)
    else
      assert s == [s[0]] + s[1..];
      [s[0]] + Delete(s[1..], del)
  }

  /** `n` spaces. */
  function Spaces(n: nat): (r: string)
    ensures |r| == n
    ensures forall i :: 0 <= i < n ==> r[i] == ' '
  {
    if n == 0 then "" else " " + Spaces(n - 1)
  }

  /** `String#ljust(width)`: pad with spaces on the right up to `width`. */
  function LJust(s: string, width: nat): (r: string)
    ensures |r| == if |s| < width then width else |s|
    ensures StartsWith(r, s)
    ensures forall i :: |s| <= i < |r| ==> r[i] == ' '
  {
    if |s| >= width then s else s + Spaces(width - |s|)
  }

  // ---------------------------------------------------------------------
  // File.dirname and File.basename
  // ---------------------------------------------------------------------

  /** Drop every trailing `/`. */
  function StripSlashes(s: string): (r: string)
    ensures StartsWith(s, r)
    ensures r == [] || r[|r| - 1] != '/'
    ensures forall i :: |r| <= i < |s| ==> s[i] == '/'
  {
    if s == [] || s[|s| - 1] != '/' then s else StripSlashes(s[..|s| - 1])
  }

  predicate IsAbsolute(p: string) {
    p != [] && p[0] == '/'
  }

  /** `File.dirname` on Unix. */
  function Dirname(p: string): string {
    var t := StripSlashes(p);
    if t == [] then (if p == [] then "." else "/")
    else match LastIndex(t, '/')
      case None => "."
      case Some(i) =>
        var d := StripSlashes(t[..i]);
        if d == [] then "/" else d
  }

  /** `File.basename` on Unix. */
  function Basename(p: string): string {
    var t := StripSlashes(p);
    if t == [] then (if p == [] then "" else "/")
    else match LastIndex(t, '/')
      case None => t
      case Some(i) => t[i + 1..]
  }

  /** The directory of an absolute path is shorter than it, except at the root. */
  lemma DirnameShorter(p: string)
    requires IsAbsolute(p)
    ensures Dirname(p) == p || |Dirname(p)| < |p|
    ensures IsAbsolute(Dirname(p))
  {
    var t := StripSlashes(p);
    if t != [] {
      assert t[0] == p[0];
      match LastIndex(t, '/')
      case None =>
        assert false;
      case Some(i) =>
        var d := StripSlashes(t[..i]);
        if d != [] {
          assert d[0] == t[0];
        }
    }
  }

  /** `File.dirname('/') == '/'`, the reason the cache root never links to itself. */
  lemma DirnameOfRoot()
    ensures Dirname("/") == "/"
  {
    assert StripSlashes("/") == StripSlashes("/"[..0]);
  }

  /** For a path with no trailing slash, the directory name and the base name
      put back together with one `/` give the path again. */
  lemma DirnameBasename(p: string)
    requires IsAbsolute(p) && p[|p| - 1] != '/'
    requires forall i :: 0 <= i < |p| - 1 ==> !(p[i] == '/' && p[i + 1] == '/')
    ensures Dirname(p) == "/" ==> p == "/" + Basename(p)
    ensures Dirname(p) != "/" ==> p == Dirname(p) + "/" + Basename(p)
  {
    assert StripSlashes(p) == p;
    var i := LastIndex(p, '/').value;
    var d := StripSlashes(p[..i]);
    if i > 0 {
      assert p[i - 1] != '/';
      assert d == p[..i];
      assert p == p[..i] + "/" + p[i + 1..];
    } else {
      assert p == "/" + p[1..];
    }
  }
}
