/** Character searches over strings, as Go's strings.LastIndex and
    strings.IndexByte behave for a one-character needle. Positions are
    indices into the string; -1 stands for "not found". */
module Strings {

  /** `t` is a suffix of `s`. */
  predicate EndsWith(s: string, t: string) {
    |t| <= |s| && s[|s| - |t|..] == t
  }

  /** The position of the last `c` in `s`, or -1 when `s` has none. */
  function LastIndex(s: string, c: char): (r: int)
    ensures -1 <= r < |s|
    ensures r >= 0 ==> s[r] == c
    ensures forall j :: r < j < |s| ==> s[j] != c
    ensures r == -1 <==> c !in s
    decreases |s|
  {
    if |s| == 0 then -1
    else if s[|s| - 1] == c then |s| - 1
    else LastIndex(s[..|s| - 1], c)
  }

  /** The position of the first `c` in `s`, or -1 when `s` has none. */
  function Index(s: string, c: char): (r: int)
    ensures -1 <= r < |s|
    ensures r >= 0 ==> s[r] == c
    ensures forall j :: 0 <= j < |s| && (r == -1 || j < r) ==> s[j] != c
    ensures r == -1 <==> c !in s
    decreases |s|
  {
    if |s| == 0 then -1
    else if s[0] == c then 0
    else
      var k := Index(s[1..], c);
      if k == -1 then -1 else k + 1
  }

  /** A position holding `c` with no `c` after it is the one LastIndex finds. */
  lemma LastIndexAt(s: string, c: char, k: int)
    requires 0 <= k < |s| && s[k] == c
    requires forall j :: k < j < |s| ==> s[j] != c
    ensures LastIndex(s, c) == k
  {
    var r := LastIndex(s, c);
    if r < k {
      assert s[k] == c;
    }
  }

  /** A position holding `c` with no `c` before it is the one Index finds. */
  lemma IndexAt(s: string, c: char, k: int)
    requires 0 <= k < |s| && s[k] == c
    requires forall j :: 0 <= j < k ==> s[j] != c
    ensures Index(s, c) == k
  {
    var r := Index(s, c);
    if r == -1 || k < r {
      assert s[k] == c;
    }
  }

  /** Nothing after the last `c` is a `c`. */
  lemma NotAfterLast(s: string, c: char)
    ensures c !in s[LastIndex(s, c) + 1..]
  {
    var k := LastIndex(s, c);
    var t := s[k + 1..];
    forall j | 0 <= j < |t| ensures t[j] != c {
      assert t[j] == s[k + 1 + j];
    }
  }
}
