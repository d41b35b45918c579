/**
 * The regular-expression rewrites droxi applies to path strings
 * (`resolve_path` in lib/droxi/state.rb, state.rb and commands.rb; `collapse`
 * in lib/droxi/complete.rb). A `sub!` replaces the leftmost match and reports
 * whether there was one; `nil while path.sub!(...)` repeats it until no match
 * is left. Paths are taken to hold no newline, so `$` means the end of the
 * string.
 */
module Rewrite {
  import opened Wrappers
  import opened Strings

  // ---------------------------------------------------------------------
  // Leftmost matches
  // ---------------------------------------------------------------------

  /** The leftmost position at or after `from` where `matchAt` matches, with
      the end of that match. */
  function Leftmost(s: string, from: nat, matchAt: (string, nat) -> Option<nat>): (r: Option<(nat, nat)>)
    decreases |s| - from
    ensures r.Some? ==> from <= r.value.0 < |s| && matchAt(s, r.value.0) == Some(r.value.1)
    ensures r.Some? ==> forall k :: from <= k < r.value.0 ==> matchAt(s, k).None?
    ensures r.None? ==> forall k :: from <= k < |s| ==> matchAt(s, k).None?
  {
    if from >= |s| then None
    else match matchAt(s, from)
      case Some(e) => Some((from, e))
      case None => Leftmost(s, from + 1, matchAt)
  }

  /** Where the literal `pat` occurs at `i`, the end of the occurrence. */
  function LiteralAt(pat: string): (string, nat) -> Option<nat> {
    (s: string, i: nat) => if i + |pat| <= |s| && s[i..i + |pat|] == pat then Some(i + |pat|) else None
  }

  predicate OccursAt(s: string, pat: string, i: nat) {
    i + |pat| <= |s| && s[i..i + |pat|] == pat
  }

  ghost predicate Occurs(s: string, pat: string) {
    exists i: nat :: OccursAt(s, pat, i)
  }

  /** No two adjacent `/`. */
  predicate NoDoubleSlash(s: string) {
    forall i :: 0 <= i < |s| - 1 ==> !(s[i] == '/' && s[i + 1] == '/')
  }

  // ---------------------------------------------------------------------
  // gsub!('//', '/')
  // ---------------------------------------------------------------------

  /** `gsub('//', '/')`: every non-overlapping `//`, left to right, becomes `/`. */
  function GsubDoubleSlash(s: string): (r: string)
    ensures |r| <= |s|
    ensures s != [] ==> r != [] && r[0] == s[0]
    ensures NoDoubleSlash(s) ==> r == s
    decreases |s|
  {
    if |s| >= 2 && s[0] == '/' && s[1] == '/' then "/" + GsubDoubleSlash(s[2..])
    else if s == [] then []
    else [s[0]] + GsubDoubleSlash(s[1..])
  }

  /** `sub('//', '/')`: only the leftmost `//` becomes `/`. */
  function SubDoubleSlash(s: string): (r: string)
    ensures Occurs(s, "//") ==> |r| + 1 == |s|
    ensures !Occurs(s, "//") ==> r == s
  {
    match Leftmost(s, 0, LiteralAt("//"))
    case Some((i, e)) =>
      assert OccursAt(s, "//", i);
      s[..i] + "/" + s[e..]
    case None =>
      assert forall i: nat :: !OccursAt(s, "//", i) by {
        forall i: nat ensures !OccursAt(s, "//", i) {
          if i < |s| {
            assert LiteralAt("//")(s, i).None?;
          }
        }
      }
      s
  }

  // ---------------------------------------------------------------------
  // sub!(%r{/([^/]+?)/\.\.}, '') of resolve_path
  // ---------------------------------------------------------------------

  /** `/([^/]+?)/\.\.` anchored at `i`: a `/`, a non-empty run of non-`/`
      characters up to the next `/`, then `/..`. */
  function DotDotAt(s: string, i: nat): (r: Option<nat>)
    ensures r.Some? ==> i + 4 <= r.value <= |s|
  {
    if i < |s| && s[i] == '/' then
      match IndexFrom(s, '/', i + 1)
      case Some(j) => if j > i + 1 && j + 3 <= |s| && s[j + 1] == '.' && s[j + 2] == '.' then Some(j + 3) else None
      case None => None
    else None
  }

  /** One `sub!`: the string with its leftmost `/seg/..` removed, or `None` (`nil`). */
  function SubDotDot(s: string): (r: Option<string>)
    ensures r.Some? ==> |r.value| + 4 <= |s|
    ensures r.None? ==> forall k :: 0 <= k < |s| ==> DotDotAt(s, k).None?
  {
    match Leftmost(s, 0, DotDotAt)
    case Some((i, e)) => Some(s[..i] + s[e..])
    case None => None
  }

  /** `nil while path.sub!(%r{/([^/]+?)/\.\.}, '')`: the fixed point. */
  function RemoveDotDots(s: string): (r: string)
    ensures |r| <= |s|
    ensures SubDotDot(r).None?
    decreases |s|
  {
    match SubDotDot(s)
    case Some(t) => RemoveDotDots(t)
    case None => s
  }

  method RepeatSubDotDot(s: string) returns (path: string)
    ensures path == RemoveDotDots(s)
  {
    path := s;
    var next := SubDotDot(path);
    while next.Some?
      invariant next == SubDotDot(path)
      invariant RemoveDotDots(path) == RemoveDotDots(s)
      decreases |path|
    {
      path := next.value;
      next := SubDotDot(path);
    }
  }

  // ---------------------------------------------------------------------
  // sub!('./', '')
  // ---------------------------------------------------------------------

  /** One `sub!('./', '')`: the string with its leftmost `./` removed, or `None`. */
  function SubDotSlash(s: string): (r: Option<string>)
    ensures r.Some? ==> |r.value| + 2 == |s|
    ensures r.None? <==> !Occurs(s, "./")
  {
    match Leftmost(s, 0, LiteralAt("./"))
    case Some((i, e)) =>
      assert OccursAt(s, "./", i);
      Some(s[..i] + s[e..])
    case None =>
      assert forall i: nat :: !OccursAt(s, "./", i) by {
        forall i: nat ensures !OccursAt(s, "./", i) {
          if i < |s| {
            assert LiteralAt("./")(s, i).None?;
          }
        }
      }
      None
  }

  /** `nil while path.sub!('./', '')`: the fixed point, holding no `./`. */
  function RemoveDotSlashes(s: string): (r: string)
    ensures |r| <= |s|
    ensures !Occurs(r, "./")
    decreases |s|
  {
    match SubDotSlash(s)
    case Some(t) => RemoveDotSlashes(t)
    case None => s
  }

  method RepeatSubDotSlash(s: string) returns (path: string)
    ensures path == RemoveDotSlashes(s)
  {
    path := s;
    var next := SubDotSlash(path);
    while next.Some?
      invariant next == SubDotSlash(path)
      invariant RemoveDotSlashes(path) == RemoveDotSlashes(s)
      decreases |path|
    {
      path := next.value;
      next := SubDotSlash(path);
    }
  }

  /** `sub!(/\/\.$/, '')`: drop a final `/.`. */
  function SubTrailingDot(s: string): (r: string)
    ensures EndsWith(s, "/.") ==> r + "/." == s
    ensures !EndsWith(s, "/.") ==> r == s
  {
    Chomp(s, "/.")
  }

  // ---------------------------------------------------------------------
  // sub!(/[^\/]+\/\.\.\//, '/') of collapse
  // ---------------------------------------------------------------------

  /** `[^/]+/\.\./` anchored at `i`: a non-empty run of non-`/` characters up
      to the next `/`, then `/../`. */
  function SegUpAt(s: string, i: nat): (r: Option<nat>)
    ensures r.Some? ==> i + 5 <= r.value <= |s|
  {
    if i < |s| && s[i] != '/' then
      match IndexFrom(s, '/', i)
      case Some(j) => if j + 4 <= |s| && s[j..j + 4] == "/../" then Some(j + 4) else None
      case None => None
    else None
  }

  /** One `sub!`: the leftmost `seg/../` replaced by `/`, or `None`. */
  function SubSegUp(s: string): (r: Option<string>)
    ensures r.Some? ==> |r.value| + 4 <= |s|
    ensures r.None? ==> forall k :: 0 <= k < |s| ==> SegUpAt(s, k).None?
  {
    match Leftmost(s, 0, SegUpAt)
    case Some((i, e)) => Some(s[..i] + "/" + s[e..])
    case None => None
  }

  /** `nil while new_path.sub!(/[^\/]+\/\.\.\//, '/')`: the fixed point. */
  function RemoveSegUps(s: string): (r: string)
    ensures |r| <= |s|
    ensures SubSegUp(r).None?
    decreases |s|
  {
    match SubSegUp(s)
    case Some(t) => RemoveSegUps(t)
    case None => s
  }

  method RepeatSubSegUp(s: string) returns (path: string)
    ensures path == RemoveSegUps(s)
  {
    path := s;
    var next := SubSegUp(path);
    while next.Some?
      invariant next == SubSegUp(path)
      invariant RemoveSegUps(path) == RemoveSegUps(s)
      decreases |path|
    {
      path := next.value;
      next := SubSegUp(path);
    }
  }
}
