# Virus-scan access plugin: the scan decision, in Dafny

The plugin runs in an API gateway's access phase. It checks the body of each
request with an external virus scanner over ICAP before the request is
forwarded. This project models the plugin's decision logic in
`internal/avclient/avclient.go` and proves properties about it:

- **Classifier** (`determineIsInfected`): reads `X-Infection-Found`,
  `X-Virus-ID` and `X-FSecure-Scan-Result` from the ICAP response headers.
- **Icap** (`scanPart`): wraps one content unit in a synthetic
  `200 OK` HTTP response and sends an ICAP OPTIONS request, then a RESPMOD
  request. The RESPMOD uses the preview size that the OPTIONS reply
  negotiated. A unit is clean exactly when the scanner answers 204.
- **Body** (`checkBody`): parses the request's media type. It then splits a
  multipart body into its parts (RFC 2046, section 5.1), or takes the whole
  body as one unnamed unit. It scans the units in order and stops at the
  first error or unclean unit. `Partition` and `Run` state this as two
  stages. `CheckParts` and `CheckBody` are the source's loop, proved equal
  to those two stages.
- **Access** (`getContentType`, `DoAccess`): resolves the content type and
  turns the outcome into the host's response calls. It always sets the
  `X-Kong-Virus-Scanned` header, then exits with 413, 500 or 400, or
  forwards the request.
- **Http**: the parts of Go's `http.Header` that the code relies on. Names
  are canonicalised, so lookups ignore letter case. **Wrappers**: `Option`
  and `Result`.

Effects become inputs:
- The network and the ICAP library: the i-th `scanPart` call of a request
  gets `net(i)`. This `IcapOracle` gives the error (if any) from building
  each request, and the reply or transport error for each request sent.
- `mime.ParseMediaType` and `multipart.NewReader`: function parameters. The
  reader's output is a `PartStream`. It lists the parts `NextPart` yields,
  each with its file name, its header and the result of `io.ReadAll`. It
  also says whether the stream ends in EOF or an error.
- The host's request accessors: the header map, and the raw body or the
  host's error message.
- The host's response calls: `DoAccess` returns them in order.

Behaviours of the code worth noting, all of which the model keeps:
- The content type is looked up under the exact key `content-type`. The
  host supplies lower-case names. The lookup is not case-insensitive.
- The media type is parsed before the body's length is tested. So an empty
  body whose content type does not parse ends in 500, not in forwarding.
- `X-Kong-Virus-Scanned` is `"false"` on every `checkBody` error, even after
  earlier units were scanned clean. It is `"true"` for an empty body, where
  nothing was scanned.
- Any completed reply other than 204 is not clean, whatever the infection
  headers say. The classifier's verdict is computed only for the log
  (`Icap.VerdictIgnoresReplyHeaders`, `Icap.NotCleanWithoutSignal`). This is
  kept as written. An ICAP 200 reply means the scanner modified the content,
  so blocking it may well be intended.
- A part with no `Content-Type` header is scanned with content type `""`.
  It does not get the `application/octet-stream` default.

## Model

| member | source | states |
|---|---|---|
| `Http.Get` | internal/avclient/avclient.go:281-295 | `Header.Get` returns the first value stored under the canonical form of the name, and `""` when the name is absent or holds no values |
| `Http.Set` | internal/avclient/avclient.go:209-210 | after `Header.Set`, `Get` of that name returns the value set, and every name with another canonical form reads as before |
| `Http.Add` | internal/avclient/avclient_test.go:42-44 | `Header.Add` appends the value to the list stored under the canonical name (an absent name starts from the empty list): `Get` keeps the first value when the list was non-empty, returns the added value when the name was absent or held no values, and other names are unaffected |
| `Http.CanonicalIdempotent` | internal/avclient/avclient.go:281-295 | canonicalising a header name twice gives what canonicalising once gives |
| `Http.GetIgnoresCase` | internal/avclient/avclient.go:281-295 | two token names that differ only in ASCII letter case look up the same header value |
| `Http.GetCanonical` | internal/avclient/avclient.go:281-295 | looking a header up by its canonical name finds what any spelling finds |
| `Classifier.IsInfected` | internal/avclient/avclient.go:280-300 | infected exactly when the set of signals is non-empty: X-Infection-Found non-empty, or X-Virus-ID non-empty and not "no threats", or X-FSecure-Scan-Result exactly "infected" |
| `Classifier.NoSignalHeadersNotInfected` | internal/avclient/avclient.go:280-300 | a header set with none of the three names is not infected |
| `Classifier.SingleHeader` | internal/avclient/avclient_test.go:53-116 | for a header set holding one header, infected exactly under the three conditions on that header's canonical name and value |
| `Classifier.SingleHeaderTable` | internal/avclient/avclient_test.go:53-116 | the seven single-header cases of the test table give the expected verdicts |
| `Classifier.CleanVirusIdDoesNotMaskFSecure` | internal/avclient/avclient_test.go:41-51 | X-Virus-ID "no threats" together with X-FSecure-Scan-Result "infected" is infected |
| `Classifier.MultipleHeadersTable` | internal/avclient/avclient_test.go:41-51 | the multiple-header test's header set, built with `Add`, is infected |
| `Icap.Outcome` | internal/avclient/avclient.go:223-277 | the decision rule: failed exactly when some step failed, clean exactly when every step succeeded and the reply is 204 |
| `Icap.Envelope` | internal/avclient/avclient.go:206-220 | the encapsulated HTTP response is a 200 whose body is the unit's bytes, whose Content-Length is their number and whose Content-Type is the unit's |
| `Icap.ScanPart` | internal/avclient/avclient.go:198-278 | the result agrees with `Outcome`: an error exactly when a step failed, with that step's error, never clean with an error, and clean exactly on 204; a non-204 reply is also classified, for the log only |
| `Icap.ScanPartRequests` | internal/avclient/avclient.go:223-263 | nothing is sent if the OPTIONS request cannot be built; OPTIONS alone if it fails or RESPMOD cannot be built; otherwise OPTIONS then a RESPMOD carrying the whole unit and the negotiated preview count |
| `Icap.VerdictIgnoresReplyHeaders` | internal/avclient/avclient.go:265-277 | two exchanges that differ only in the RESPMOD reply's headers give the same verdict and error |
| `Icap.NotCleanWithoutSignal` | internal/avclient/avclient.go:270-277 | a completed non-204 reply without any infection signal is still not clean, with no error |
| `Body.NextPart` | internal/avclient/avclient.go:142-151 | the k-th `NextPart` yields the k-th part while there is one, then EOF or the stream's error |
| `Body.FirstUnreadable` | internal/avclient/avclient.go:153-159 | every part before the index can be read and the part at the index, if any, cannot |
| `Body.MultipartUnits` | internal/avclient/avclient.go:139-179 | the units of a multipart body are its parts in order, each with its file name, its own Content-Type and its bytes, up to the first unreadable part; then a read error, a NextPart error or nothing |
| `Body.AllReadableParts` | internal/avclient/avclient.go:142-159 | when every part can be read, every part is a unit and the outcome is decided by how the stream ends |
| `Body.Partition` | internal/avclient/avclient.go:129-193 | a media type that does not parse gives no units and that error; multipart gives the part units; otherwise one unnamed unit with the request's content type for a non-empty body, none for an empty one |
| `Body.Run` | internal/avclient/avclient.go:139-195 | never true with an error; true only after scanning every unit with no partition error; stops before the end only after scanning at least one more unit |
| `Body.RunOkIffAllClean` | internal/avclient/avclient.go:139-195 | the check succeeds exactly when the partitioning met no error and every unit scans clean |
| `Body.RunStopsAtFirstUnclean` | internal/avclient/avclient.go:169-177 | at the first unit that is not clean the check stops after exactly that many scans, with the scan error or with "not clean" and no error |
| `Body.RunAllClean` | internal/avclient/avclient.go:139-195 | when every unit scans clean, all are scanned and the result is that of the partitioning |
| `Body.RunScansPrefix` | internal/avclient/avclient.go:142-179 | every scanned unit but the last is clean; when scanning stops early, the last scanned unit was not clean |
| `Body.MediaTypeErrorScansNothing` | internal/avclient/avclient.go:129-133 | an unparsable media type fails with no scan |
| `Body.EmptyBodyNotScanned` | internal/avclient/avclient.go:191-195 | an empty non-multipart body is accepted with zero scans |
| `Body.WholeBodyScannedOnce` | internal/avclient/avclient.go:180-190 | a non-empty non-multipart body is exactly one unnamed unit with the request's content type, scanned once, and its verdict is that scan's |
| `Body.ThreePartsSecondNotClean` | internal/avclient/avclient.go:142-179 | three readable parts with the second answered non-204: two scans, the third is never scanned, and the result is not clean without error |
| `Body.CheckParts` | internal/avclient/avclient.go:139-179 | the `NextPart` loop returns what `Run` gives for the multipart units, and the units it scans are a prefix of them, as many as `Run` counts |
| `Body.CheckBody` | internal/avclient/avclient.go:125-196 | `checkBody` never returns true with an error, returns what `Partition` and then `Run` give, and scans a prefix of the units, as many as `Run` counts |
| `Access.GetContentType` | internal/avclient/avclient.go:115-123 | `application/octet-stream` when "content-type" is absent, else its first value unchanged |
| `Access.Respond` | internal/avclient/avclient.go:73-111 | one scanned-header call first, then at most one exit; no exit exactly when checked clean; 413 exactly for the too-large message, 400 exactly for not clean, 500 for any other error; header "true" exactly when checked without error |
| `Access.DoAccess` | internal/avclient/avclient.go:60-113 | the calls made are `Respond` of the outcome; nothing is scanned when the body cannot be fetched; otherwise a prefix of the units is scanned, as many as `checkBody` counts |
| `Access.ForwardedIffAllClean` | internal/avclient/avclient.go:94-111 | a request is forwarded exactly when its body was fetched, partitioned without error and every unit scanned clean |
| `Access.PartitionFailureIsServerError` | internal/avclient/avclient.go:94-100 | a partitioning error reached after clean units ends in header "false" and a 500 exit |
| `Access.CleanPlainBodyForwarded` | internal/avclient/avclient.go:107-111 | a non-multipart body answered 204 is forwarded with header "true" and no exit |
| `Access.TooLargeBodyRejected` | internal/avclient/avclient.go:73-80 | the host's too-large message gives header "false" and a 413 exit |

## Left out

- The `DefaultKong` wrappers around the gateway's SDK and all logging calls: host I/O that does not affect the decision.
- The ICAP client library and the network: `ic.NewRequest`, `client.Do`, the 15-second client timeout and the global `ic.SetDebugMode(false)`. Their outcomes are the `IcapOracle` inputs.
- Icap.ScanPart: the scanner's reply is an input for each call. It is not a function of the bytes sent, so the model does not relate a unit's content to its verdict.
- `mime.ParseMediaType`, `multipart.NewReader`, `NextPart`, `Part.FileName` and `io.ReadAll`: standard-library parsers. They are parameters, or fields of the `PartStream`.
- The host's `GetHeaders` and `GetRawBody`: their results are inputs. The error that `GetHeaders(100)` may return is never checked by the code (line 65). The model takes the header map as given.
- Access.GetContentType: requires a present "content-type" entry to hold a value. The Go code would panic on an empty list.
- The wording of the Go error messages. `checkBody`'s errors are the `BodyError` constructors (media type, NextPart, part read, part scan, body scan). The reader's `%v` text at line 150 is not modelled.
- `ContentLength` is an `int64` in Go; the model uses an unbounded integer.
- `textproto.CanonicalMIMEHeaderKey` is not part of this model's source. `Http.Canonical` follows its documented rule. A name made only of token characters is case-normalised around `-`; any other name is left unchanged.
- `cmd/kong-plugin-virus-scan/main.go`: plugin registration, version and priority only. The test file's printing fake `TestKong`: its test tables appear as classifier lemmas.
