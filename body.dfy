/**
 * `checkBody`: the request body is carved into content units (one per part
 * of a multipart body, RFC 2046 section 5.1, or the whole body), the units
 * are scanned in order, and the first error or unclean unit ends the check.
 *
 * `mime.ParseMediaType` and `multipart.NewReader` are library code outside
 * this model; they are parameters. The reader's output is a `PartStream`:
 * the parts `NextPart` yields, each with its `FileName()`, its header and
 * the outcome of `io.ReadAll` on it, and how the stream ends.
 *
 * `Partition` and `Run` state the behaviour as two stages; the method
 * `CheckBody` is the source's loop, proved equal to them.
 */
module Body {
  import opened Wrappers
  import opened Http
  import Icap

  datatype MediaType = MediaType(mediaType: string, params: map<string, string>)

  datatype Part = Part(fileName: string, header: Header, content: Result<Bytes, string>)

  datatype StreamEnd = Eof | Broken(msg: string)

  datatype PartStream = PartStream(parts: seq<Part>, end: StreamEnd)

  datatype NextPartResult = NextOk(part: Part) | NextEof | NextErr(msg: string)

  /** One scannable slice of the body: a file name ("" for a whole body), a media type and the bytes. */
  datatype ContentUnit = ContentUnit(fileName: string, contentType: string, bytes: Bytes)

  /** The errors `checkBody` returns. */
  datatype BodyError =
    | MediaTypeError(contentType: string)
    | NextPartError
    | ReadPartError(fileName: string)
    | ScanFileError(fileName: string)
    | ScanBodyError

  /**
   * The units of a body in the order they are produced, the error (if any)
   * that the partitioning meets after the last of them, and whether the
   * units are the whole body rather than multipart parts.
   */
  datatype Units = Units(units: seq<ContentUnit>, failure: Option<BodyError>, whole: bool)

  /** Go's `(bool, error)` result of `checkBody`, with the number of `scanPart` calls made. */
  datatype Check = Check(ok: bool, err: Option<BodyError>, scans: nat)

  const MultipartPrefix := "multipart/"

  predicate HasPrefix(s: string, prefix: string) {
    |prefix| <= |s| && s[..|prefix|] == prefix
  }

  /** `params["boundary"]` on a Go map: "" for a missing key. */
  function Param(params: map<string, string>, name: string): string {
    if name in params then params[name] else ""
  }

  /** The k-th call of `NextPart` on the reader. */
  function NextPart(mr: PartStream, k: nat): (r: NextPartResult)
    ensures r.NextOk? <==> k < |mr.parts|
    ensures r.NextOk? ==> r.part == mr.parts[k]
    ensures r.NextEof? <==> k >= |mr.parts| && mr.end == Eof
  {
    if k < |mr.parts| then NextOk(mr.parts[k])
    else match mr.end
      case Eof => NextEof
      case Broken(msg) => NextErr(msg)
  }

  /** The index of the first part whose bytes cannot be read, or the number of parts. */
  function FirstUnreadable(parts: seq<Part>): (n: nat)
    ensures n <= |parts|
    ensures forall j :: 0 <= j < n ==> parts[j].content.Success?
    ensures n < |parts| ==> parts[n].content.Failure?
  {
    if parts == [] || parts[0].content.Failure? then 0
    else 1 + FirstUnreadable(parts[1..])
  }

  /** A readable part as a unit: its file name, its own Content-Type ("" when absent) and its bytes. */
  function UnitOf(p: Part): ContentUnit
    requires p.content.Success?
  {
    ContentUnit(p.fileName, Get(p.header, "Content-Type"), p.content.value)
  }

  /** The units of a multipart body: the parts in order, up to the first that cannot be read. */
  function MultipartUnits(mr: PartStream): (u: Units)
    ensures !u.whole
    ensures |u.units| <= |mr.parts|
    ensures forall j :: 0 <= j < |u.units| ==> mr.parts[j].content.Success? && u.units[j] == UnitOf(mr.parts[j])
    ensures |u.units| < |mr.parts| ==> mr.parts[|u.units|].content.Failure?
    ensures |u.units| < |mr.parts| ==> u.failure == Some(ReadPartError(mr.parts[|u.units|].fileName))
    ensures |u.units| == |mr.parts| ==> u.failure == if mr.end == Eof then None else Some(NextPartError)
  {
    var n := FirstUnreadable(mr.parts);
    var units := seq(n, j requires 0 <= j < n => UnitOf(mr.parts[j]));
    var failure :=
      if n < |mr.parts| then Some(ReadPartError(mr.parts[n].fileName))
      else if mr.end == Eof then None
      else Some(NextPartError);
    Units(units, failure, false)
  }

  /** A multipart body yields exactly its parts when every part can be read. */
  lemma AllReadableParts(mr: PartStream)
    requires forall j :: 0 <= j < |mr.parts| ==> mr.parts[j].content.Success?
    ensures |MultipartUnits(mr).units| == |mr.parts|
    ensures MultipartUnits(mr).failure == if mr.end == Eof then None else Some(NextPartError)
  {
  }

  /** The body partitioner: which units `checkBody` will meet, and in which order. */
  function Partition(requestContentType: string, body: Bytes,
                     parseMediaType: string -> Result<MediaType, string>,
                     newReader: (Bytes, string) -> PartStream): (u: Units)
    ensures parseMediaType(requestContentType).Failure? ==>
      u == Units([], Some(MediaTypeError(requestContentType)), false)
    ensures parseMediaType(requestContentType).Success? &&
            HasPrefix(parseMediaType(requestContentType).value.mediaType, MultipartPrefix) ==>
      u == MultipartUnits(newReader(body, Param(parseMediaType(requestContentType).value.params, "boundary")))
    ensures parseMediaType(requestContentType).Success? &&
            !HasPrefix(parseMediaType(requestContentType).value.mediaType, MultipartPrefix) ==>
      && u.whole && u.failure.None?
      && u.units == (if |body| > 0 then [ContentUnit("", requestContentType, body)] else [])
  {
    match parseMediaType(requestContentType)
    case Failure(_) => Units([], Some(MediaTypeError(requestContentType)), false)
    case Success(mt) =>
      if HasPrefix(mt.mediaType, MultipartPrefix) then
        MultipartUnits(newReader(body, Param(mt.params, "boundary")))
      else if |body| > 0 then
        Units([ContentUnit("", requestContentType, body)], None, true)
      else
        Units([], None, true)
  }

  /** The error `checkBody` reports when scanning a unit fails. */
  function ScanFailure(p: Units, u: ContentUnit): BodyError {
    if p.whole then ScanBodyError else ScanFileError(u.fileName)
  }

  /** The j-th unit scans clean: the j-th `scanPart` call of a request meets the scanner as `net(j)` says. */
  ghost predicate Clean(net: nat -> Icap.IcapOracle, j: nat) {
    Icap.Outcome(net(j)) == Icap.Clean
  }

  /** The orchestration of the units from index i on: in order, stopping at the first error or unclean unit. */
  function Run(p: Units, net: nat -> Icap.IcapOracle, i: nat): (c: Check)
    requires i <= |p.units|
    decreases |p.units| - i
    ensures i <= c.scans <= |p.units|
    ensures c.err.Some? ==> !c.ok
    ensures c.ok ==> c.scans == |p.units| && c.err.None? && p.failure.None?
    ensures c.scans == i ==> i == |p.units| && c.err == p.failure
  {
    if i == |p.units| then
      Check(p.failure.None?, p.failure, i)
    else
      match Icap.Outcome(net(i))
      case Failed(_) => Check(false, Some(ScanFailure(p, p.units[i])), i + 1)
      case NotClean => Check(false, None, i + 1)
      case Clean => Run(p, net, i + 1)
  }

  /** The orchestration accepts exactly when every unit scans clean and the partitioning met no error. */
  lemma {:induction false} RunOkIffAllClean(p: Units, net: nat -> Icap.IcapOracle, i: nat)
    requires i <= |p.units|
    decreases |p.units| - i
    ensures Run(p, net, i).ok <==>
      p.failure.None? && forall j :: i <= j < |p.units| ==> Clean(net, j)
  {
    if i < |p.units| {
      RunOkIffAllClean(p, net, i + 1);
      if !Clean(net, i) {
        assert !Run(p, net, i).ok;
      }
    }
  }

  /**
   * Fail fast: at the first unit that does not scan clean the orchestration
   * stops, after exactly that many scans, reporting the scan error if there
   * was one and otherwise "not clean" without an error. No later unit is scanned.
   */
  lemma {:induction false} RunStopsAtFirstUnclean(p: Units, net: nat -> Icap.IcapOracle, i: nat, j: nat)
    requires i <= j < |p.units|
    requires forall m :: i <= m < j ==> Clean(net, m)
    requires !Clean(net, j)
    decreases j - i
    ensures Run(p, net, i) ==
      Check(false,
            if Icap.Outcome(net(j)).Failed? then Some(ScanFailure(p, p.units[j])) else None,
            j + 1)
  {
    if i < j {
      assert Clean(net, i);
      RunStopsAtFirstUnclean(p, net, i + 1, j);
    }
  }

  /**
   * When every unit scans clean, all of them are scanned and the outcome is
   * that of the partitioning: accepted, or the error it ended with.
   */
  lemma {:induction false} RunAllClean(p: Units, net: nat -> Icap.IcapOracle, i: nat)
    requires i <= |p.units|
    requires forall m :: i <= m < |p.units| ==> Clean(net, m)
    decreases |p.units| - i
    ensures Run(p, net, i) == Check(p.failure.None?, p.failure, |p.units|)
  {
    if i < |p.units| {
      assert Clean(net, i);
      RunAllClean(p, net, i + 1);
    }
  }

  /**
   * The units scanned are a prefix of the units, every scanned unit but the
   * last is clean, and when the scans stop early the last one was not clean.
   */
  lemma {:induction false} RunScansPrefix(p: Units, net: nat -> Icap.IcapOracle, i: nat)
    requires i <= |p.units|
    decreases |p.units| - i
    ensures forall m :: i <= m < Run(p, net, i).scans - 1 ==> Clean(net, m)
    ensures Run(p, net, i).scans < |p.units| ==>
      i < Run(p, net, i).scans && !Clean(net, Run(p, net, i).scans - 1)
  {
    if i < |p.units| && Clean(net, i) {
      RunScansPrefix(p, net, i + 1);
    }
  }

  /** What `checkBody` returns, by the two stages. */
  function CheckBodySpec(requestContentType: string, body: Bytes,
                         parseMediaType: string -> Result<MediaType, string>,
                         newReader: (Bytes, string) -> PartStream,
                         net: nat -> Icap.IcapOracle): Check
  {
    Run(Partition(requestContentType, body, parseMediaType, newReader), net, 0)
  }

  /** A media type that cannot be parsed fails the check before anything is scanned. */
  lemma MediaTypeErrorScansNothing(requestContentType: string, body: Bytes,
                                   parseMediaType: string -> Result<MediaType, string>,
                                   newReader: (Bytes, string) -> PartStream,
                                   net: nat -> Icap.IcapOracle)
    requires parseMediaType(requestContentType).Failure?
    ensures CheckBodySpec(requestContentType, body, parseMediaType, newReader, net) ==
      Check(false, Some(MediaTypeError(requestContentType)), 0)
  {
  }

  /** An empty body that is not multipart is accepted with no scan at all. */
  lemma EmptyBodyNotScanned(requestContentType: string,
                            parseMediaType: string -> Result<MediaType, string>,
                            newReader: (Bytes, string) -> PartStream,
                            net: nat -> Icap.IcapOracle)
    requires parseMediaType(requestContentType).Success?
    requires !HasPrefix(parseMediaType(requestContentType).value.mediaType, MultipartPrefix)
    ensures CheckBodySpec(requestContentType, [], parseMediaType, newReader, net) == Check(true, None, 0)
  {
  }

  /**
   * A non-empty body that is not multipart is scanned exactly once, as one
   * unnamed unit carrying the request's content type, and its verdict is the
   * verdict of that scan.
   */
  lemma WholeBodyScannedOnce(requestContentType: string, body: Bytes,
                             parseMediaType: string -> Result<MediaType, string>,
                             newReader: (Bytes, string) -> PartStream,
                             net: nat -> Icap.IcapOracle)
    requires parseMediaType(requestContentType).Success?
    requires !HasPrefix(parseMediaType(requestContentType).value.mediaType, MultipartPrefix)
    requires |body| > 0
    ensures Partition(requestContentType, body, parseMediaType, newReader).units == [ContentUnit("", requestContentType, body)]
    ensures CheckBodySpec(requestContentType, body, parseMediaType, newReader, net) ==
      Check(Icap.Outcome(net(0)) == Icap.Clean, if Icap.Outcome(net(0)).Failed? then Some(ScanBodyError) else None, 1)
  {
    var p := Partition(requestContentType, body, parseMediaType, newReader);
    assert p == Units([ContentUnit("", requestContentType, body)], None, true);
    assert Run(p, net, 1) == Check(true, None, 1);
  }

  /**
   * Three readable parts, the first clean and the second answered with a
   * status other than 204: exactly two scans, the third part is never
   * scanned, and the body is rejected without an error.
   */
  lemma ThreePartsSecondNotClean(requestContentType: string, body: Bytes,
                                 parseMediaType: string -> Result<MediaType, string>,
                                 newReader: (Bytes, string) -> PartStream,
                                 net: nat -> Icap.IcapOracle)
    requires parseMediaType(requestContentType).Success?
    requires HasPrefix(parseMediaType(requestContentType).value.mediaType, MultipartPrefix)
    requires var mr := newReader(body, Param(parseMediaType(requestContentType).value.params, "boundary"));
      |mr.parts| == 3 && forall j :: 0 <= j < 3 ==> mr.parts[j].content.Success?
    requires Icap.Completed(net(0)) && net(0).respmodReply.value.statusCode == Icap.NoModificationsNeeded
    requires Icap.Completed(net(1)) && net(1).respmodReply.value.statusCode != Icap.NoModificationsNeeded
    ensures CheckBodySpec(requestContentType, body, parseMediaType, newReader, net) == Check(false, None, 2)
  {
    var mt := parseMediaType(requestContentType).value;
    var mr := newReader(body, Param(mt.params, "boundary"));
    AllReadableParts(mr);
    var p := Partition(requestContentType, body, parseMediaType, newReader);
    assert p == MultipartUnits(mr);
    assert |p.units| == 3;
    assert Icap.Outcome(net(1)) == Icap.NotClean;
    forall m | 0 <= m < 1
      ensures Clean(net, m)
    {
      assert m == 0;
    }
    RunStopsAtFirstUnclean(p, net, 0, 1);
  }

  /** Appending the next element of a sequence to a prefix of it gives a prefix. */
  lemma PrefixExtend<T>(a: seq<T>, b: seq<T>)
    requires a <= b && |a| < |b|
    ensures a + [b[|a|]] <= b
  {
    assert a + [b[|a|]] == b[..|a| + 1];
  }

  /** The multipart branch of `checkBody`: pull parts until the reader ends, scanning each as it comes. */
  method CheckParts(scannerURL: string, mr: PartStream, net: nat -> Icap.IcapOracle)
    returns (ok: bool, err: Option<BodyError>, ghost scanned: seq<ContentUnit>)
    ensures Check(ok, err, |scanned|) == Run(MultipartUnits(mr), net, 0)
    ensures scanned <= MultipartUnits(mr).units
  {
    ghost var p := MultipartUnits(mr);
    scanned := [];
    var k := 0;
    while true
      invariant k <= |p.units|
      invariant |scanned| == k && scanned <= p.units
      invariant Run(p, net, 0) == Run(p, net, k)
      decreases |mr.parts| - k
    {
      var next := NextPart(mr, k);
      if next.NextEof? {
        break;
      }
      if next.NextErr? {
        ok, err := false, Some(NextPartError);
        return;
      }
      var part := next.part;
      var fileName := part.fileName;
      if part.content.Failure? {
        ok, err := false, Some(ReadPartError(fileName));
        return;
      }
      var slurp := part.content.value;
      var unit := ContentUnit(part.fileName, Get(part.header, "Content-Type"), slurp);
      assert unit == p.units[k];
      var partScan := Icap.ScanPart(scannerURL, part.fileName, unit.contentType, slurp, net(k));
      PrefixExtend(scanned, p.units);
      scanned := scanned + [unit];
      if partScan.err.Some? {
        ok, err := false, Some(ScanFileError(fileName));
        return;
      } else if !partScan.ok {
        ok, err := false, None;
        return;
      }
      k := k + 1;
    }
    ok, err := true, None;
  }

  /** `checkBody`: parse the media type, then scan the parts or the whole body. */
  method CheckBody(scannerURL: string, requestContentType: string, body: Bytes,
                   parseMediaType: string -> Result<MediaType, string>,
                   newReader: (Bytes, string) -> PartStream,
                   net: nat -> Icap.IcapOracle)
    returns (ok: bool, err: Option<BodyError>, ghost scanned: seq<ContentUnit>)
    ensures err.Some? ==> !ok
    ensures Check(ok, err, |scanned|) == CheckBodySpec(requestContentType, body, parseMediaType, newReader, net)
    ensures scanned <= Partition(requestContentType, body, parseMediaType, newReader).units
  {
    scanned := [];
    var parsed := parseMediaType(requestContentType);
    if parsed.Failure? {
      ok, err := false, Some(MediaTypeError(requestContentType));
      return;
    }
    var mediaType, params := parsed.value.mediaType, parsed.value.params;
    ghost var p := Partition(requestContentType, body, parseMediaType, newReader);

    if HasPrefix(mediaType, MultipartPrefix) {
      var mr := newReader(body, Param(params, "boundary"));
      assert p == MultipartUnits(mr);
      ok, err, scanned := CheckParts(scannerURL, mr, net);
      return;
    } else if |body| > 0 {
      var unit := ContentUnit("", requestContentType, body);
      assert p == Units([unit], None, true);
      var partScan := Icap.ScanPart(scannerURL, "", requestContentType, body, net(0));
      scanned := [unit];
      if partScan.err.Some? {
        ok, err := false, Some(ScanBodyError);
        return;
      } else if !partScan.ok {
        ok, err := false, None;
        return;
      }
      assert Run(p, net, 0) == Run(p, net, 1);
    }
    ok, err := true, None;
  }
}
