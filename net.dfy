/** Go's net.SplitHostPort and its inverse net.JoinHostPort. An address
    is "host:port", or "[host]:port" when the host (an IPv6 literal, say)
    holds colons of its own. */
module Net {
  import opened Strings

  datatype Option<+T> = None | Some(value: T)

  /** The reasons SplitHostPort gives for rejecting an address. */
  datatype AddrErrorKind =
    | MissingPort          // "missing port in address"
    | TooManyColons        // "too many colons in address"
    | MissingCloseBracket  // "missing ']' in address"
    | UnexpectedOpenBracket  // "unexpected '[' in address"
    | UnexpectedCloseBracket // "unexpected ']' in address"

  datatype AddrError = AddrError(why: AddrErrorKind, addr: string)

  /** The three results of SplitHostPort; on an error host and port are "". */
  datatype Split = Split(host: string, port: string, err: Option<AddrError>)

  function Fail(why: AddrErrorKind, addr: string): Split {
    Split("", "", Some(AddrError(why, addr)))
  }

  /** `s` holds none of the characters that delimit host and port. */
  predicate NoDelimiters(s: string) {
    ':' !in s && '[' !in s && ']' !in s
  }

  /** The properties of a successful split of `hostport` into `r`. */
  predicate SplitsInto(hostport: string, r: Split) {
    r.err.None? && NoDelimiters(r.port) && '[' !in r.host && ']' !in r.host &&
    |hostport| > 0 &&
    (hostport[0] == '[' ==> hostport == "[" + r.host + "]:" + r.port) &&
    (hostport[0] != '[' ==> hostport == r.host + ":" + r.port && ':' !in r.host)
  }

  /** net.SplitHostPort: the port is what follows the last colon; a host
      starting with '[' must end with the first ']', just before that
      colon; an unbracketed host may hold no colon; no stray brackets
      may appear. */
  function SplitHostPort(hostport: string): (r: Split)
    ensures r.err.Some? ==> r.host == "" && r.port == "" && r.err.value.addr == hostport
    ensures ':' !in hostport ==> r.err == Some(AddrError(MissingPort, hostport))
    ensures r.err.None? ==> SplitsInto(hostport, r)
  {
    var i := LastIndex(hostport, ':');
    if i < 0 then Fail(MissingPort, hostport)
    else if hostport[0] == '[' then SplitBracketed(hostport, i)
    else SplitUnbracketed(hostport, i)
  }

  /** The branch of SplitHostPort for an address starting with '[';
      `i` is the position of its last colon. */
  function SplitBracketed(hostport: string, i: nat): (r: Split)
    requires i < |hostport| && hostport[i] == ':' && hostport[0] == '['
    requires forall j :: i < j < |hostport| ==> hostport[j] != ':'
    ensures r.err.Some? ==> r.host == "" && r.port == "" && r.err.value.addr == hostport
    ensures r.err.None? ==> SplitsInto(hostport, r)
  {
    var end := Index(hostport, ']');
    if end < 0 then Fail(MissingCloseBracket, hostport)
    else if end + 1 == |hostport| then Fail(MissingPort, hostport)
    else if end + 1 != i then
      if hostport[end + 1] == ':' then Fail(TooManyColons, hostport)
      else Fail(MissingPort, hostport)
    else if '[' in hostport[1..] then Fail(UnexpectedOpenBracket, hostport)
    else if ']' in hostport[end + 1..] then Fail(UnexpectedCloseBracket, hostport)
    else
      BracketedSplits(hostport, end);
      Split(hostport[1..end], hostport[i + 1..], None)
  }

  /** When the first ']' is followed by the last colon and no stray
      bracket appears, the bracketed split has the promised shape. */
  lemma BracketedSplits(hostport: string, end: nat)
    requires 0 < end && end + 1 < |hostport| && hostport[0] == '['
    requires hostport[end] == ']' && hostport[end + 1] == ':'
    requires forall j :: 0 <= j < end ==> hostport[j] != ']'
    requires forall j :: end + 1 < j < |hostport| ==> hostport[j] != ':'
    requires '[' !in hostport[1..] && ']' !in hostport[end + 1..]
    ensures SplitsInto(hostport, Split(hostport[1..end], hostport[end + 2..], None))
  {
    var host, port := hostport[1..end], hostport[end + 2..];
    assert hostport == [hostport[0]] + host + [hostport[end]] + [hostport[end + 1]] + port;
    forall j | 0 <= j < |host| ensures host[j] != '[' && host[j] != ']' {
      assert host[j] == hostport[1..][j] == hostport[j + 1];
    }
    forall j | 0 <= j < |port| ensures port[j] != ':' && port[j] != '[' && port[j] != ']' {
      assert port[j] == hostport[1..][end + 1 + j] == hostport[end + 1..][j + 1] == hostport[end + 2 + j];
    }
  }

  /** The branch of SplitHostPort for an address not starting with '[';
      `i` is the position of its last colon. */
  function SplitUnbracketed(hostport: string, i: nat): (r: Split)
    requires i < |hostport| && hostport[i] == ':' && hostport[0] != '['
    requires forall j :: i < j < |hostport| ==> hostport[j] != ':'
    ensures r.err.Some? ==> r.host == "" && r.port == "" && r.err.value.addr == hostport
    ensures r.err.None? ==> SplitsInto(hostport, r)
  {
    var host := hostport[..i];
    if ':' in host then Fail(TooManyColons, hostport)
    else if '[' in hostport then Fail(UnexpectedOpenBracket, hostport)
    else if ']' in hostport then Fail(UnexpectedCloseBracket, hostport)
    else
      var port := hostport[i + 1..];
      assert hostport == host + [hostport[i]] + port;
      Split(host, port, None)
  }

  /** net.JoinHostPort: brackets the host when it holds a colon. */
  function JoinHostPort(host: string, port: string): (s: string)
    ensures |s| == |host| + |port| + (if ':' in host then 3 else 1)
    ensures ':' in host ==> s[0] == '[' && s[|s| - |port| - 1] == ':'
    ensures ':' !in host ==> s[|host|] == ':' && s[..|host|] == host
  {
    if ':' in host then "[" + host + "]:" + port else host + ":" + port
  }

  /** An unbracketed "host:port" with no delimiters in host or port splits
      back into that host and port. */
  lemma SplitPlainForm(host: string, port: string)
    requires NoDelimiters(host) && NoDelimiters(port)
    ensures SplitHostPort(host + ":" + port) == Split(host, port, None)
  {
    var s := host + ":" + port;
    forall j | |host| < j < |s| ensures s[j] != ':' {
      assert s[j] == port[j - |host| - 1];
    }
    LastIndexAt(s, ':', |host|);
    assert s[..|host|] == host;
    assert s[|host| + 1..] == port;
    assert s[0] != '[' by {
      if |host| > 0 { assert s[0] == host[0]; }
    }
    assert '[' !in s && ']' !in s by {
      assert s == host + [':'] + port;
    }
  }

  /** The last colon of "[host]:port" is the one after ']'. */
  lemma BracketedLastColon(host: string, port: string, s: string)
    requires ':' !in port && s == "[" + host + "]:" + port
    ensures LastIndex(s, ':') == |host| + 2
  {
    var n := |host|;
    forall j | n + 2 < j < |s| ensures s[j] != ':' {
      assert s[j] == port[j - n - 3];
    }
    LastIndexAt(s, ':', n + 2);
  }

  /** The first ']' of "[host]:port" is the one after the host. */
  lemma BracketedFirstClose(host: string, port: string, s: string)
    requires ']' !in host && s == "[" + host + "]:" + port
    ensures Index(s, ']') == |host| + 1
  {
    var n := |host|;
    forall j | 0 <= j < n + 1 ensures s[j] != ']' {
      if j > 0 { assert s[j] == host[j - 1]; }
    }
    IndexAt(s, ']', n + 1);
  }

  /** "[host]:port" has no stray bracket and its parts are host and port. */
  lemma BracketedParts(host: string, port: string, s: string)
    requires '[' !in host && NoDelimiters(port)
    requires s == "[" + host + "]:" + port
    ensures s[0] == '[' && |s| == |host| + 3 + |port|
    ensures '[' !in s[1..] && ']' !in s[|host| + 2..]
    ensures s[1..|host| + 1] == host && s[|host| + 3..] == port
  {
    var n := |host|;
    assert s[1..] == host + "]:" + port;
    assert s[n + 2..] == ":" + port;
    assert s[1..n + 1] == host;
    assert s[n + 3..] == port;
  }

  /** "[host]:port", where host has no brackets and port no delimiters,
      splits back into that host and port; host may hold colons. */
  lemma SplitBracketedForm(host: string, port: string)
    requires '[' !in host && ']' !in host && NoDelimiters(port)
    ensures SplitHostPort("[" + host + "]:" + port) == Split(host, port, None)
  {
    var s := "[" + host + "]:" + port;
    BracketedLastColon(host, port, s);
    BracketedFirstClose(host, port, s);
    BracketedParts(host, port, s);
    assert SplitHostPort(s) == SplitBracketed(s, |host| + 2);
  }

  /** SplitHostPort undoes JoinHostPort whenever the host has no brackets
      and the port no delimiters. */
  lemma {:induction false} SplitJoin(host: string, port: string)
    requires '[' !in host && ']' !in host && NoDelimiters(port)
    ensures SplitHostPort(JoinHostPort(host, port)) == Split(host, port, None)
  {
    if ':' in host {
      SplitBracketedForm(host, port);
    } else {
      SplitPlainForm(host, port);
    }
  }
}
