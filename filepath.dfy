/** Go's path/filepath.Base and filepath.Dir on Unix, for the clean paths
    that runtime frames carry. On such paths filepath.Clean changes
    nothing, so both reduce to a search for the last separator. */
module FilePath {
  import opened Strings

  const Separator: char := '/'

  /** The path element starting at `i` is ".". */
  predicate DotAt(p: string, i: int)
    requires 0 <= i < |p|
  {
    p[i] == '.' && (i + 1 == |p| || p[i + 1] == Separator)
  }

  /** The path element starting at `i` is "..". */
  predicate DotDotAt(p: string, i: int)
    requires 0 <= i < |p|
  {
    i + 1 < |p| && p[i] == '.' && p[i + 1] == '.' && (i + 2 == |p| || p[i + 2] == Separator)
  }

  /** Two separators follow each other at `i`. */
  predicate DoubleSeparatorAt(p: string, i: int)
    requires 0 <= i < |p| - 1
  {
    p[i] == Separator && p[i + 1] == Separator
  }

  /** A path element starts at `i`. */
  predicate StartsElement(p: string, i: int)
    requires 0 <= i < |p|
  {
    i == 0 || p[i - 1] == Separator
  }

  /** `p` is the root, or a path with no repeated separator, no trailing
      separator and no "." or ".." element, or the empty path of a
      zero-valued runtime frame. */
  predicate IsCleanPath(p: string) {
    p == "" || p == "/" ||
    (p[|p| - 1] != Separator &&
     (forall i :: 0 <= i < |p| - 1 ==> !DoubleSeparatorAt(p, i)) &&
     (forall i :: 0 <= i < |p| && StartsElement(p, i) ==> !DotAt(p, i) && !DotDotAt(p, i)))
  }

  /** filepath.Base: the last element of `p`, the part after its last
      separator; "." for the empty path and "/" for the root. */
  function Base(p: string): (b: string)
    requires IsCleanPath(p)
    ensures b != ""
    ensures p == "" ==> b == "."
    ensures p == "/" ==> b == "/"
    ensures p != "" && p != "/" ==>
      |b| == |p| - LastIndex(p, Separator) - 1 && p[|p| - |b|..] == b && Separator !in b
  {
    if p == "" then "."
    else if p == "/" then "/"
    else
      var k := LastIndex(p, Separator);
      assert Separator !in p[k + 1..] by {
        NotAfterLast(p, Separator);
      }
      p[k + 1..]
  }

  /** filepath.Dir: everything before the last element: "." when `p` has
      no separator, "/" when its last separator is the leading one, and
      otherwise the prefix before the last separator, which then ends in
      an element name. */
  function Dir(p: string): (d: string)
    requires IsCleanPath(p)
    ensures d != "" && (d != "/" ==> d[|d| - 1] != Separator)
    ensures d == "." <==> LastIndex(p, Separator) == -1
    ensures d == "/" <==> LastIndex(p, Separator) == 0
    ensures d != "." && d != "/" ==> |d| == LastIndex(p, Separator) && p[..|d|] == d
  {
    var k := LastIndex(p, Separator);
    if k == -1 then "."
    else if k == 0 then "/"
    else
      assert p[k - 1] != Separator by {
        assert p != "/" && !DoubleSeparatorAt(p, k - 1);
      }
      assert p[..k] != "." by {
        if p[..k] == "." {
          assert StartsElement(p, 0) && DotAt(p, 0);
        }
      }
      p[..k]
  }

  /** Dir and Base split a clean path: the directory, one separator and
      the last element give back the path. */
  lemma {:induction false} DirBaseSplit(p: string)
    requires IsCleanPath(p) && p != "" && p != "/"
    ensures Dir(p) == "." ==> Base(p) == p
    ensures Dir(p) == "/" ==> p == "/" + Base(p)
    ensures Dir(p) != "." && Dir(p) != "/" ==> p == Dir(p) + "/" + Base(p)
  {
    var d, b := Dir(p), Base(p);
    var k := LastIndex(p, Separator);
    if d == "." {
      assert k == -1;
    } else if d == "/" {
      assert k == 0;
      assert p == p[..1] + p[1..];
    } else {
      assert k == |d|;
      assert p == p[..k] + [p[k]] + p[k + 1..];
    }
  }
}
