/** Character and string helpers shared by the modules: ASCII upper-casing (as
    Python's `str.upper`, Java's `toUpperCase` and the generated `FromString`
    tables use it on schema names), and the code-point lexicographic order that
    Python's `sorted` applies to strings. */
module Strings {

  predicate IsAsciiLower(c: char) { 'a' <= c <= 'z' }

  function UpperChar(c: char): (u: char)
    ensures IsAsciiLower(c) ==> u as int == c as int - 32
    ensures !IsAsciiLower(c) ==> u == c
  {
    if IsAsciiLower(c) then (c as int - 32) as char else c
  }

  /** Upper-cased copy of `s`, character by character. */
  function Upper(s: string): (r: string)
    ensures |r| == |s|
    ensures forall i :: 0 <= i < |s| ==> r[i] == UpperChar(s[i])
  {
    if s == [] then [] else [UpperChar(s[0])] + Upper(s[1..])
  }

  /** Strict code-point lexicographic order on strings (Python's `<` on `str`). */
  predicate Less(a: string, b: string)
  {
    if a == [] then b != []
    else if b == [] then false
    else a[0] < b[0] || (a[0] == b[0] && Less(a[1..], b[1..]))
  }

  lemma LessIrreflexive(a: string)
    ensures !Less(a, a)
  {
  }

  lemma LessTransitive(a: string, b: string, c: string)
    requires Less(a, b) && Less(b, c)
    ensures Less(a, c)
  {
  }

  lemma LessTotal(a: string, b: string)
    requires a != b
    ensures Less(a, b) || Less(b, a)
  {
    if a != [] && b != [] && a[0] == b[0] {
      assert a == [a[0]] + a[1..] && b == [b[0]] + b[1..];
      LessTotal(a[1..], b[1..]);
    }
  }

  predicate StrictlySorted(s: seq<string>)
  {
    forall i, j :: 0 <= i < j < |s| ==> Less(s[i], s[j])
  }

  /** `x` put into its place in the ascending sequence `r`. */
  function Insert(x: string, r: seq<string>): (res: seq<string>)
    requires StrictlySorted(r) && x !in r
    ensures StrictlySorted(res)
    ensures |res| == |r| + 1
    ensures forall z :: z in res <==> z == x || z in r
  {
    if r == [] then [x]
    else if Less(x, r[0]) then
      assert forall j :: 0 <= j < |r| ==> Less(x, r[j]) by {
        forall j | 0 < j < |r| ensures Less(x, r[j]) { LessTransitive(x, r[0], r[j]); }
      }
      [x] + r
    else
      LessTotal(x, r[0]);
      var tail := Insert(x, r[1..]);
      assert forall z :: z in tail ==> Less(r[0], z) by {
        forall z | z in tail ensures Less(r[0], z) {
          if z != x { var j :| 0 <= j < |r[1..]| && r[1..][j] == z; assert r[j + 1] == z; }
        }
      }
      [r[0]] + tail
  }

  /** The elements of `s` in ascending order (Python's `sorted(s)`). */
  ghost function Sorted(s: set<string>): (r: seq<string>)
    ensures StrictlySorted(r)
    ensures |r| == |s|
    ensures forall x :: x in s <==> x in r
    decreases |s|
  {
    if s == {} then []
    else
      var y :| y in s;
      Insert(y, Sorted(s - {y}))
  }
}
