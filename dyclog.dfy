/** The string helpers of the dyclog logger (utils.go): the short caller
    location written beside each log record, and the client address of an
    HTTP request. */
module Dyclog {
  import opened Strings
  import opened FilePath
  import opened Net

  // ---------------------------------------------------------------------
  // Caller location
  // ---------------------------------------------------------------------

  /** The two fields of a runtime.Frame that GetCallerLocation reads. */
  datatype Frame = Frame(file: string, line: int)

  /** The position of the last separator in the directory of `file`, or -1. */
  function DirLastSlash(file: string): int
    requires IsCleanPath(file)
  {
    LastIndex(Dir(file), Separator)
  }

  /** On a clean path the last separator of the directory sits at the last
      position of the whole path only when the path is the root. */
  lemma BoundaryOnlyAtRoot(file: string)
    requires IsCleanPath(file) && Separator in Dir(file)
    ensures DirLastSlash(file) == |file| - 1 <==> file == "/"
  {
    var d := Dir(file);
    if d == "/" {
      assert DirLastSlash(file) == 0 by {
        LastIndexAt(d, Separator, 0);
      }
      assert file[0] == Separator;
    } else {
      assert DirLastSlash(file) < |d| < |file| - 1;
    }
  }

  /** GetCallerLocation as the source writes it: the location is the path
      after the last separator of its directory, then "/" and the base
      name. Because that tail is cut from the whole path and not from the
      directory, it already ends with the base name. */
  function GetCallerLocation(caller: Frame): (r: (string, int))
    requires IsCleanPath(caller.file)
    ensures r.1 == caller.line
    ensures r.0 == "" <==> caller.file == "/" || Separator !in Dir(caller.file)
    ensures r.0 != "" ==>
      0 <= DirLastSlash(caller.file) < |caller.file| &&
      r.0 == caller.file[DirLastSlash(caller.file) + 1..] + "/" + Base(caller.file)
  {
    var file := caller.file;
    var line := caller.line;
    var baseName := Base(file);
    var dir := Dir(file);
    var lastSlash := LastIndex(dir, Separator);
    if lastSlash == -1 then ("", line)
    else
      BoundaryOnlyAtRoot(file);
      assert lastSlash < |file| by {
        if dir == "/" { LastIndexAt(dir, Separator, 0); }
      }
      if lastSlash == |file| - 1 || baseName == "" then ("", line)
      else
        (file[lastSlash + 1..] + "/" + baseName, line)
  }

  /** The intended location splits into a parent name without separator,
      one separator, and the base name, and is the tail of the path. */
  lemma ParentTail(file: string)
    requires IsCleanPath(file) && Separator in Dir(file) && Dir(file) != "/"
    ensures var d, b, k := Dir(file), Base(file), DirLastSlash(file);
      var loc := d[k + 1..] + "/" + b;
      0 <= k < |d| - 1 && Separator !in d[k + 1..] &&
      |loc| < |file| && file[|file| - |loc|..] == loc && file[|file| - |loc| - 1] == Separator
  {
    var d, b, k := Dir(file), Base(file), DirLastSlash(file);
    var parent := d[k + 1..];
    var loc := parent + "/" + b;
    NotAfterLast(d, Separator);
    DirBaseSplit(file);
    assert file == d[..k + 1] + loc by {
      assert d == d[..k + 1] + parent;
    }
    assert file[|file| - |loc|..] == loc;
    assert file[|file| - |loc| - 1] == d[k];
  }

  /** The location as evidently intended: the last element of the
      directory, "/" and the base name, with the boundary test made
      against the directory it searched. */
  function CorrectedCallerLocation(caller: Frame): (r: (string, int))
    requires IsCleanPath(caller.file)
    ensures r.1 == caller.line
    ensures r.0 == "" <==> Separator !in Dir(caller.file) || Dir(caller.file) == "/"
  {
    var file := caller.file;
    var line := caller.line;
    var baseName := Base(file);
    var dir := Dir(file);
    var lastSlash := LastIndex(dir, Separator);
    if lastSlash == -1 || lastSlash == |dir| - 1 || baseName == "" then
      assert dir == "/" ==> lastSlash == 0 by {
        if dir == "/" { LastIndexAt(dir, Separator, 0); }
      }
      ("", line)
    else
      ParentTail(file);
      (dir[lastSlash + 1..] + "/" + baseName, line)
  }

  /** A non-empty intended location is "parent/name": a parent name with
      no separator, one separator, the base name; and it is the tail of
      the path that follows a separator. */
  lemma CorrectedIsLastTwoElements(caller: Frame)
    requires IsCleanPath(caller.file)
    ensures var loc, file, b := CorrectedCallerLocation(caller).0, caller.file, Base(caller.file);
      var n := |loc| - |b| - 1;
      loc != "" ==>
        |loc| < |file| && file[|file| - |loc|..] == loc && file[|file| - |loc| - 1] == Separator &&
        0 < n && loc[n] == Separator && Separator !in loc[..n] && loc[n + 1..] == b
  {
    var loc, file, b := CorrectedCallerLocation(caller).0, caller.file, Base(caller.file);
    if loc != "" {
      var d, k := Dir(file), DirLastSlash(file);
      var parent := d[k + 1..];
      ParentTail(file);
      assert loc == parent + "/" + b;
      assert loc[..|parent|] == parent;
      assert loc[|parent| + 1..] == b;
    }
  }

  /** Whenever the intended location exists, the location as written is it
      followed by a second "/" and base name. */
  lemma {:induction false} WrittenRepeatsBase(caller: Frame)
    requires IsCleanPath(caller.file)
    ensures CorrectedCallerLocation(caller).0 != "" ==>
      GetCallerLocation(caller).0 ==
        CorrectedCallerLocation(caller).0 + "/" + Base(caller.file)
  {
    var file := caller.file;
    var dir, b := Dir(file), Base(file);
    var k := DirLastSlash(file);
    if CorrectedCallerLocation(caller).0 != "" {
      DirBaseSplit(file);
      assert file == dir + "/" + b;
      assert file[k + 1..] == dir[k + 1..] + "/" + b;
    }
  }

  /** For a file directly under the root the intended location is empty,
      while the location as written is the base name twice. */
  lemma {:induction false} WrittenUnderRoot(caller: Frame)
    requires IsCleanPath(caller.file)
    requires Dir(caller.file) == "/" && caller.file != "/"
    ensures CorrectedCallerLocation(caller).0 == ""
    ensures GetCallerLocation(caller).0 ==
      Base(caller.file) + "/" + Base(caller.file)
  {
    DirBaseSplit(caller.file);
    assert caller.file[1..] == Base(caller.file);
  }

  /** The last separator of the directory comes no later than the last
      separator of the path. */
  lemma DirSlashNotAfterLast(file: string)
    requires IsCleanPath(file) && Separator in Dir(file)
    ensures 0 <= DirLastSlash(file) <= LastIndex(file, Separator)
  {
    if Dir(file) == "/" {
      LastIndexAt("/", Separator, 0);
    }
  }

  /** A tail of a path that ends with `b`, followed by "/" and `b`, ends
      with `b`, "/", `b`. */
  lemma TailThenBase(file: string, k: int, b: string, loc: string)
    requires 0 <= k + 1 <= |file| - |b| && file[|file| - |b|..] == b
    requires loc == file[k + 1..] + "/" + b
    ensures |loc| == |file| - k - 1 + 1 + |b|
    ensures EndsWith(loc, "/" + b)
    ensures EndsWith(loc, b + "/" + b)
  {
    var tail := file[k + 1..];
    assert tail[|tail| - |b|..] == b;
    assert tail == tail[..|tail| - |b|] + b;
  }

  /** Every non-empty location as written ends with the base name twice,
      and is as long as the path after the directory's last separator,
      one separator and the base name together. */
  lemma {:induction false} WrittenEndsWithBaseTwice(caller: Frame)
    requires IsCleanPath(caller.file)
    ensures GetCallerLocation(caller).0 != "" ==>
      |GetCallerLocation(caller).0| == |caller.file| - DirLastSlash(caller.file) - 1 + 1 + |Base(caller.file)|
    ensures GetCallerLocation(caller).0 != "" ==>
      EndsWith(GetCallerLocation(caller).0, "/" + Base(caller.file))
    ensures GetCallerLocation(caller).0 != "" ==>
      EndsWith(GetCallerLocation(caller).0, Base(caller.file) + "/" + Base(caller.file))
  {
    var file := caller.file;
    var loc, b := GetCallerLocation(caller).0, Base(file);
    if loc != "" {
      var k := DirLastSlash(file);
      DirSlashNotAfterLast(file);
      assert loc == file[k + 1..] + "/" + b;
      TailThenBase(file, k, b, loc);
    }
  }

  /** `p` holds at least two separators. */
  predicate HasTwoSeparators(p: string) {
    exists i, j :: 0 <= i < j < |p| && p[i] == Separator && p[j] == Separator
  }

  /** The location as written is non-empty exactly for an absolute path
      other than the root, and for a relative path with at least two
      separators. */
  lemma {:induction false} LocationInPathTerms(caller: Frame)
    requires IsCleanPath(caller.file)
    ensures GetCallerLocation(caller).0 != "" <==>
      (|caller.file| > 1 && caller.file[0] == Separator) || HasTwoSeparators(caller.file)
  {
    var file := caller.file;
    var d, k := Dir(file), LastIndex(file, Separator);
    if Separator in d && file != "/" {
      if d != "/" {
        var i :| 0 <= i < |d| && d[i] == Separator;
        assert file[i] == Separator && file[k] == Separator && i < k;
      }
    }
    if |file| > 1 && file[0] == Separator {
      assert k >= 0;
      if k > 0 { assert d[0] == Separator; }
    }
    if HasTwoSeparators(file) {
      var i, j :| 0 <= i < j < |file| && file[i] == Separator && file[j] == Separator;
      assert j <= k;
      if k > 0 { assert d[i] == Separator; }
    }
  }

  /** A bare file name has no directory to name. */
  lemma BareFileName(caller: Frame)
    requires IsCleanPath(caller.file) && Separator !in caller.file
    ensures GetCallerLocation(caller) == ("", caller.line)
    ensures CorrectedCallerLocation(caller) == ("", caller.line)
  {
    assert Dir(caller.file) == ".";
    assert Separator !in ".";
  }

  /** The directory, base name and directory separator of "/a/b/c.go". */
  lemma NestedParts()
    ensures IsCleanPath("/a/b/c.go")
    ensures Dir("/a/b/c.go") == "/a/b" && Base("/a/b/c.go") == "c.go"
    ensures DirLastSlash("/a/b/c.go") == 2
  {
    var p, d := "/a/b/c.go", "/a/b";
    assert IsCleanPath(p);
    LastIndexAt(p, Separator, 4);
    assert p[..4] == d && p[5..] == "c.go";
    LastIndexAt(d, Separator, 2);
  }

  /** "/a/b/c.go" gives "b/c.go/c.go" as written. */
  lemma NestedExample()
    ensures IsCleanPath("/a/b/c.go") && GetCallerLocation(Frame("/a/b/c.go", 42)) == ("b/c.go/c.go", 42)
  {
    NestedParts();
    var p := "/a/b/c.go";
    assert p[3..] == "b/c.go";
    var r := GetCallerLocation(Frame(p, 42));
    assert r.0 == p[3..] + "/" + "c.go";
    assert r.0 == "b/c.go/c.go";
    assert r.1 == 42;
    assert r == ("b/c.go/c.go", 42);
  }

  /** "/a/b/c.go" gives "b/c.go" as intended. */
  lemma NestedExampleCorrected()
    ensures IsCleanPath("/a/b/c.go") && CorrectedCallerLocation(Frame("/a/b/c.go", 42)) == ("b/c.go", 42)
  {
    NestedParts();
    var d := "/a/b";
    assert d[3..] == "b";
    var r := CorrectedCallerLocation(Frame("/a/b/c.go", 42));
    assert r.0 == d[3..] + "/" + "c.go";
    assert r.0 == "b/c.go";
    assert r == ("b/c.go", 42);
  }

  /** The root path and the empty path of a zero frame give no location. */
  lemma DegenerateExamples(line: int)
    ensures GetCallerLocation(Frame("/", line)) == ("", line)
    ensures GetCallerLocation(Frame("", line)) == ("", line)
  {
  }

  // ---------------------------------------------------------------------
  // Client address
  // ---------------------------------------------------------------------

  /** http.Header: values stored under canonical header names. */
  type Header = map<string, seq<string>>

  /** The two fields of an http.Request that GetRemoteIP reads. */
  datatype Request = Request(remoteAddr: string, header: Header)

  /** Canonical form of "X-Real-IP", the key Header.Get looks up for it. */
  const RealIPKey: string := "X-Real-Ip"
  const ForwardedForKey: string := "X-Forwarded-For"
  const IPv6Loopback: string := "::1"
  const IPv4Loopback: string := "127.0.0.1"

  /** Header.Get: the first value under `key`, or "" when there is none. */
  function HeaderGet(h: Header, key: string): (r: string)
    ensures key !in h || |h[key]| == 0 ==> r == ""
    ensures key in h && |h[key]| > 0 ==> r == h[key][0]
    ensures r != "" ==> key in h && r in h[key]
  {
    if key in h && |h[key]| > 0 then h[key][0] else ""
  }

  function RealIP(req: Request): string {
    HeaderGet(req.header, RealIPKey)
  }

  function ForwardedFor(req: Request): string {
    HeaderGet(req.header, ForwardedForKey)
  }

  /** The host SplitHostPort finds in the transport address; "" on error. */
  function RemoteHost(req: Request): string {
    SplitHostPort(req.remoteAddr).host
  }

  /** Rewrites the IPv6 loopback to the IPv4 one and leaves every other
      value as it is. */
  function NormalizeLoopback(ip: string): (r: string)
    ensures r != IPv6Loopback
    ensures ip != IPv6Loopback ==> r == ip
    ensures ip == IPv6Loopback ==> r == IPv4Loopback
  {
    if ip == IPv6Loopback then IPv4Loopback else ip
  }

  lemma NormalizeIdempotent(ip: string)
    ensures NormalizeLoopback(NormalizeLoopback(ip)) == NormalizeLoopback(ip)
  {
  }

  /** GetRemoteIP: X-Real-IP, else X-Forwarded-For, else the host of the
      transport address, the IPv6 loopback read as the IPv4 one. The error
      of SplitHostPort is dropped, so an address it rejects yields "". */
  function GetRemoteIP(req: Request): (ip: string)
    ensures ip != IPv6Loopback
    ensures ip == IPv4Loopback || ip == RealIP(req) || ip == ForwardedFor(req) || ip == RemoteHost(req)
    ensures ip == "" <==> RealIP(req) == "" && ForwardedFor(req) == "" && RemoteHost(req) == ""
  {
    var remoteAddr :=
      if RealIP(req) != "" then RealIP(req)
      else if ForwardedFor(req) != "" then ForwardedFor(req)
      else SplitHostPort(req.remoteAddr).host;
    NormalizeLoopback(remoteAddr)
  }

  /** A non-empty X-Real-IP decides the result whatever the rest holds. */
  lemma RealIPWins(req: Request)
    requires RealIP(req) != ""
    ensures GetRemoteIP(req) == NormalizeLoopback(RealIP(req))
  {
  }

  /** X-Forwarded-For is read only when X-Real-IP is empty. */
  lemma ForwardedForSecond(req: Request)
    requires RealIP(req) == "" && ForwardedFor(req) != ""
    ensures GetRemoteIP(req) == NormalizeLoopback(ForwardedFor(req))
  {
  }

  /** With neither header the transport address decides; one that
      SplitHostPort rejects gives "", not the raw address. */
  lemma RemoteAddrLast(req: Request)
    requires RealIP(req) == "" && ForwardedFor(req) == ""
    ensures GetRemoteIP(req) == NormalizeLoopback(RemoteHost(req))
    ensures SplitHostPort(req.remoteAddr).err.Some? ==> GetRemoteIP(req) == ""
  {
  }

  /** Two requests that agree on a non-empty X-Real-IP get the same answer. */
  lemma {:induction false} RealIPIgnoresRest(req1: Request, req2: Request)
    requires RealIP(req1) != "" && RealIP(req1) == RealIP(req2)
    ensures GetRemoteIP(req1) == GetRemoteIP(req2)
  {
    RealIPWins(req1);
    RealIPWins(req2);
  }

  /** GetRemoteIP on a well-formed transport address with no headers: the
      host, with the loopback normalised. */
  lemma {:induction false} RemoteAddrHost(host: string, port: string, header: Header)
    requires '[' !in host && ']' !in host && NoDelimiters(port)
    requires HeaderGet(header, RealIPKey) == "" && HeaderGet(header, ForwardedForKey) == ""
    ensures GetRemoteIP(Request(JoinHostPort(host, port), header)) == NormalizeLoopback(host)
  {
    SplitJoin(host, port);
  }

  /** "1.2.3.4:5678" with no headers gives its host. */
  lemma HostPortExample()
    ensures GetRemoteIP(Request("1.2.3.4:5678", map[])) == "1.2.3.4"
  {
    assert "1.2.3.4:5678" == "1.2.3.4" + ":" + "5678";
    SplitPlainForm("1.2.3.4", "5678");
  }

  /** "[::1]:5678" with no headers gives the IPv4 loopback. */
  lemma BracketedLoopbackExample()
    ensures GetRemoteIP(Request("[::1]:5678", map[])) == IPv4Loopback
  {
    assert "[::1]:5678" == "[" + "::1" + "]:" + "5678";
    SplitBracketedForm("::1", "5678");
  }

  /** X-Real-IP is returned whatever the transport address is. */
  lemma RealIPExample()
    ensures GetRemoteIP(Request("ignored:0", map[RealIPKey := ["9.9.9.9"]])) == "9.9.9.9"
  {
  }

  /** An address without a port gives "", not the address itself. */
  lemma MissingPortExample()
    ensures GetRemoteIP(Request("1.2.3.4", map[])) == ""
  {
    assert ':' !in "1.2.3.4";
  }
}
