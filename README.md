# dyclog utilities in Dafny

This project models the two string helpers of the dyclog logger's
`utils.go`. The logger uses them to add caller metadata and client metadata
to a log record:

- `GetCallerLocation` turns a runtime frame into a short location string
  and a line number. The frame is a source file path plus a line.
- `GetRemoteIP` picks the client address of an HTTP request. It tries the
  `X-Real-IP` header first, then `X-Forwarded-For`, then the host part of
  the transport address. It rewrites the IPv6 loopback `::1` to `127.0.0.1`.

Both are pure, loop-free functions, so the model is pure Dafny: datatypes,
functions and lemmas. The Go library calls they depend on are modelled as
small pure functions too:

- `strings.LastIndex` and `strings.IndexByte` (module `Strings`);
- `filepath.Base` and `filepath.Dir` on clean Unix paths (module `FilePath`);
- `net.SplitHostPort` and its inverse `net.JoinHostPort` (module `Net`).

The two helpers themselves are in module `Dyclog`.

Where the code and its evident intent disagree, the model follows the
code:

- `GetCallerLocation` cuts the location out of the whole path, not out of
  the directory. So `/a/b/c.go` gives `b/c.go/c.go`, where the
  "parent/file" location `b/c.go` is evidently meant. The model keeps
  the code's behaviour and shows the difference (see "## Findings").
- `GetRemoteIP` throws away the error from `SplitHostPort`. So a transport
  address without a port gives `""`, not the raw address.
  `MissingPortExample` states this.

`GetCallerLocation` also returns `""` when the last separator of the
directory sits at position `len(file)-1` of the whole path.
`BoundaryOnlyAtRoot` shows that on a clean path this happens only for the
root `/`. The test `baseName == ""` can never fire, because `Base` never
returns `""`.

## Model

| member | source | states |
|---|---|---|
| Strings.LastIndex | utils.go:33 | The result is -1 exactly when the character is absent. Otherwise it holds the character and no later position does. |
| Strings.Index | utils.go:47 | The result is -1 exactly when the character is absent. Otherwise it holds the character and no earlier position does. |
| FilePath.Base | utils.go:31 | The result is never empty. It is "." for the empty path and "/" for the root. Otherwise it is the separator-free tail after the path's last separator. |
| FilePath.Dir | utils.go:32 | The result is "." exactly when the path has no separator, and "/" exactly when its last separator is the leading one. Otherwise it is the prefix before the last separator. It never ends in a separator unless it is "/". |
| FilePath.DirBaseSplit | utils.go:31-32 | Dir, one separator and Base give back the original path. Under the root there is no extra separator, and without a directory Base is the whole path. |
| Net.SplitHostPort | utils.go:47 | On an error, host and port are empty and the error carries the address. No colon means a missing-port error. On success the address is "host:port" with a colon-free host, or "[host]:port". Neither host nor port holds a stray bracket, and the port holds no colon. |
| Net.SplitBracketed | utils.go:47 | The branch for an address starting with '['. It has the same error and success guarantees as SplitHostPort. |
| Net.SplitUnbracketed | utils.go:47 | The branch for any other address. It has the same error and success guarantees as SplitHostPort. |
| Net.JoinHostPort | utils.go:47 | The result is host, colon and port, plus two bracket characters when the host holds a colon. A colon-free host is its prefix with the colon right after it. Otherwise it starts with '[' and the port colon sits just before the port. SplitJoin proves it is the inverse of the split. |
| Net.SplitPlainForm | utils.go:47 | "host:port", with no delimiter in either part, splits back into that host and port. |
| Net.SplitBracketedForm | utils.go:47 | "[host]:port", with no bracket in the host and no delimiter in the port, splits back into that host and port. |
| Net.SplitJoin | utils.go:47 | SplitHostPort undoes JoinHostPort whenever the host has no brackets and the port has no delimiters. |
| Dyclog.GetCallerLocation | utils.go:27-38 | The line is always returned unchanged. The location is empty exactly for the root or when the directory has no separator. Otherwise it is the whole path after the directory's last separator, then "/" and the base name. |
| Dyclog.BoundaryOnlyAtRoot | utils.go:34 | On a clean path, the directory's last separator sits at the path's last position only for the root. |
| Dyclog.LocationInPathTerms | utils.go:31-36 | The location is non-empty exactly for an absolute path other than the root, or for a path with at least two separators. |
| Dyclog.WrittenEndsWithBaseTwice | utils.go:37 | A non-empty location has length len(file) − lastSlash − 1 + 1 + len(base). It ends with "/" + base, and in fact with base + "/" + base. |
| Dyclog.BareFileName | utils.go:33-35 | A path with no separator gives an empty location, both as written and as corrected. |
| Dyclog.DegenerateExamples | utils.go:34-35 | The root and the empty path of a zero frame give an empty location and keep their line. |
| Dyclog.NestedExample | utils.go:37 | "/a/b/c.go" with line 42 gives ("b/c.go/c.go", 42). |
| Dyclog.CorrectedCallerLocation | utils.go:27-38 | The corrected location keeps the line. It is empty exactly when the directory has no separator or is the root. |
| Dyclog.CorrectedIsLastTwoElements | utils.go:37 | A non-empty corrected location is a separator-free parent name, one separator and the base name. It is the tail of the path right after a separator. |
| Dyclog.WrittenRepeatsBase | utils.go:37 | Whenever the corrected location exists, the location as written is that location plus another "/" and base name. |
| Dyclog.WrittenUnderRoot | utils.go:34-37 | For a file directly under "/", the corrected location is empty. The location as written is base + "/" + base. |
| Dyclog.NestedExampleCorrected | utils.go:37 | "/a/b/c.go" with line 42 gives ("b/c.go", 42) once corrected. |
| Dyclog.HeaderGet | utils.go:42-44 | The first value stored under the key, or "" when the key is missing or has no values. A non-empty result is one of the values stored under the key. |
| Dyclog.NormalizeLoopback | utils.go:50-52 | The result is never "::1". "::1" becomes "127.0.0.1", and every other value is left unchanged. |
| Dyclog.NormalizeIdempotent | utils.go:50-52 | Normalising twice gives the same result as normalising once. |
| Dyclog.GetRemoteIP | utils.go:40-55 | The result is never "::1". It is "127.0.0.1", X-Real-IP, X-Forwarded-For or the transport host. It is empty exactly when all three sources are empty. |
| Dyclog.RealIPWins | utils.go:42-43 | A non-empty X-Real-IP decides the result, after normalisation. |
| Dyclog.ForwardedForSecond | utils.go:44-45 | When X-Real-IP is empty and X-Forwarded-For is not, X-Forwarded-For decides the result, after normalisation. |
| Dyclog.RemoteAddrLast | utils.go:46-47 | With both headers empty, the normalised SplitHostPort host is the result. An address it rejects gives "". |
| Dyclog.RealIPIgnoresRest | utils.go:42-43 | Two requests that share a non-empty X-Real-IP get the same result, whatever their other headers and addresses. |
| Dyclog.RemoteAddrHost | utils.go:47-52 | With no headers, an address built by JoinHostPort gives its host back, normalised. |
| Dyclog.HostPortExample | utils.go:47 | "1.2.3.4:5678" with no headers gives "1.2.3.4". |
| Dyclog.BracketedLoopbackExample | utils.go:47-52 | "[::1]:5678" with no headers gives "127.0.0.1". |
| Dyclog.RealIPExample | utils.go:42-43 | X-Real-IP "9.9.9.9" wins over the address "ignored:0". |
| Dyclog.MissingPortExample | utils.go:47 | "1.2.3.4", which has no port and no headers, gives "". |

## Findings

| source | as written | input that shows it | evidently intended | confidence | as-written member | corrected member |
|---|---|---|---|---|---|---|
| utils.go:37 | `file[lastSlash+1:] + "/" + baseName` slices the whole path, so the base name appears twice | `/a/b/c.go` gives `b/c.go/c.go` | `dir[lastSlash+1:] + "/" + baseName`, the parent directory and the file: `b/c.go`; with the boundary test against `len(dir)-1`, so a file directly under the root gives `""` | high; not executed | Dyclog.NestedExample | Dyclog.CorrectedCallerLocation |

The as-written side is also stated for every input by
`Dyclog.WrittenEndsWithBaseTwice`. Any non-empty location ends with the
base name twice. The corrected side is stated by
`Dyclog.CorrectedIsLastTwoElements` and `Dyclog.NestedExampleCorrected`.
`Dyclog.WrittenRepeatsBase` and `Dyclog.WrittenUnderRoot` relate the two.
The corrected function also checks its boundary against the directory it
searched, `len(dir)-1`, not against `len(file)-1`. So a file directly under
the root has no parent name and gives `""`.

## Left out

- `GetLocalIP` (utils.go:57-70): it lists the host's network interfaces, which is operating-system state. It is not modelled.
- Nil pointers: Go's `GetCallerLocation` and `GetRemoteIP` take a `*runtime.Frame` and a `*http.Request` and panic on nil. The model takes plain values, so nil frames and requests are not modelled.
- `GetCaller` (utils.go:72-78): it reads the goroutine's call stack through the runtime. It is not modelled. A frame is a plain `Frame(file, line)` value. Its empty file stands for the zero frame returned when the stack is too shallow.
- FilePath.Base: `filepath.Clean` on unclean paths is not modelled. `Base`, `Dir` and both location functions require `IsCleanPath`. That means the root, the empty path, or a path with no repeated separator, no trailing separator and no `.` or `..` element.
- FilePath.Dir: modelled only for clean paths, for the same reason.
- Dyclog.GetRemoteIP: header-name canonicalisation in `http.Header.Get` is not modelled. Headers are a map from canonical names to value lists. The two lookups use the canonical keys `X-Real-Ip` and `X-Forwarded-For` directly.
- Header values are not checked to be IP addresses. The source does not check them either. A comma-separated X-Forwarded-For list is returned as it is.
- Strings are sequences of characters, not bytes. Every delimiter involved (`/`, `:`, `[`, `]`) is ASCII, so the substrings found are the same as Go's. The positions differ only when characters are not ASCII.
