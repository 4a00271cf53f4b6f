/**
 * `DoAccess`, the plugin's access-phase handler: resolve the request's
 * content type, fetch the body, run `checkBody`, and turn the outcome into
 * calls on the host's response: always the X-Kong-Virus-Scanned header, and
 * an early exit with 413, 500 or 400 unless the request is to be forwarded.
 *
 * The host's request accessors are inputs (the headers map and the raw body
 * or the host's error message); the response calls are returned in order.
 */
module Access {
  import opened Wrappers
  import opened Http
  import Icap
  import Body

  const ScannedHeader := "X-Kong-Virus-Scanned"
  const DefaultContentType := "application/octet-stream"
  /** The host's error message for a body larger than its buffer. */
  const TooLargeMessage := "request body did not fit into client body buffer, consider raising 'client_body_buffer_size'"

  const PayloadTooLarge := 413
  const BadRequest := 400
  const InternalServerError := 500

  /** The request headers as the host hands them over: lower-case names, lists of values. */
  type RequestHeaders = map<string, seq<string>>

  /** A "content-type" entry, when present, holds at least one value (indexing it otherwise panics). */
  predicate ContentTypeIndexable(requestHeaders: RequestHeaders) {
    "content-type" in requestHeaders ==> |requestHeaders["content-type"]| > 0
  }

  /** `getContentType`: the first "content-type" value, verbatim, or the octet-stream default. */
  function GetContentType(requestHeaders: RequestHeaders): (ct: string)
    requires ContentTypeIndexable(requestHeaders)
    ensures "content-type" !in requestHeaders ==> ct == DefaultContentType
    ensures "content-type" in requestHeaders ==> ct == requestHeaders["content-type"][0]
  {
    if "content-type" !in requestHeaders then DefaultContentType
    else requestHeaders["content-type"][0]
  }

  /** A call on the host's response: `ResponseSetHeader` or `ResponseExit` (with an empty body). */
  datatype HostCall = SetHeader(name: string, value: string) | Exit(status: int, body: string)

  /** What the handler has learnt about the request: the body could not be fetched, or `checkBody`'s result. */
  datatype AccessOutcome = BodyUnavailable(msg: string) | Checked(ok: bool, err: Option<Body.BodyError>)

  /**
   * The response calls for an outcome: one scanned-header call first, then at
   * most one exit; the request is forwarded (no exit) exactly when the body
   * was checked clean without error.
   */
  function Respond(o: AccessOutcome): (calls: seq<HostCall>)
    ensures 1 <= |calls| <= 2
    ensures calls[0] == SetHeader(ScannedHeader, if o.Checked? && o.err.None? then "true" else "false")
    ensures |calls| == 2 ==> calls[1].Exit? && calls[1].body == ""
    ensures |calls| == 1 <==> o == Checked(true, None)
    ensures |calls| == 2 ==> (calls[1].status == PayloadTooLarge <==> o == BodyUnavailable(TooLargeMessage))
    ensures |calls| == 2 ==> (calls[1].status == BadRequest <==> o == Checked(false, None))
    ensures |calls| == 2 ==>
      (calls[1].status == InternalServerError <==> (o.BodyUnavailable? && o.msg != TooLargeMessage) || (o.Checked? && o.err.Some?))
  {
    match o
    case BodyUnavailable(msg) =>
      [SetHeader(ScannedHeader, "false"), Exit(if msg == TooLargeMessage then PayloadTooLarge else InternalServerError, "")]
    case Checked(ok, err) =>
      if err.Some? then [SetHeader(ScannedHeader, "false"), Exit(InternalServerError, "")]
      else if !ok then [SetHeader(ScannedHeader, "true"), Exit(BadRequest, "")]
      else [SetHeader(ScannedHeader, "true")]
  }

  /** The outcome for a request, by the specification of `checkBody`. */
  function OutcomeOf(requestHeaders: RequestHeaders, rawBody: Result<Bytes, string>,
                     parseMediaType: string -> Result<Body.MediaType, string>,
                     newReader: (Bytes, string) -> Body.PartStream,
                     net: nat -> Icap.IcapOracle): AccessOutcome
    requires ContentTypeIndexable(requestHeaders)
  {
    match rawBody
    case Failure(msg) => BodyUnavailable(msg)
    case Success(body) =>
      var c := Body.CheckBodySpec(GetContentType(requestHeaders), body, parseMediaType, newReader, net);
      Checked(c.ok, c.err)
  }

  /** `DoAccess`. */
  method DoAccess(scannerURL: string, requestHeaders: RequestHeaders, rawBody: Result<Bytes, string>,
                  parseMediaType: string -> Result<Body.MediaType, string>,
                  newReader: (Bytes, string) -> Body.PartStream,
                  net: nat -> Icap.IcapOracle)
    returns (calls: seq<HostCall>, ghost scanned: seq<Body.ContentUnit>)
    requires ContentTypeIndexable(requestHeaders)
    ensures calls == Respond(OutcomeOf(requestHeaders, rawBody, parseMediaType, newReader, net))
    ensures rawBody.Failure? ==> scanned == []
    ensures rawBody.Success? ==>
      && scanned <= Body.Partition(GetContentType(requestHeaders), rawBody.value, parseMediaType, newReader).units
      && |scanned| == Body.CheckBodySpec(GetContentType(requestHeaders), rawBody.value, parseMediaType, newReader, net).scans
  {
    scanned := [];
    var contentType := GetContentType(requestHeaders);
    if rawBody.Failure? {
      calls := [SetHeader(ScannedHeader, "false")];
      if rawBody.error == TooLargeMessage {
        calls := calls + [Exit(PayloadTooLarge, "")];
        return;
      }
      calls := calls + [Exit(InternalServerError, "")];
      return;
    }
    var body := rawBody.value;
    var bodyIsOK, err;
    bodyIsOK, err, scanned := Body.CheckBody(scannerURL, contentType, body, parseMediaType, newReader, net);
    if err.Some? {
      calls := [SetHeader(ScannedHeader, "false"), Exit(InternalServerError, "")];
    } else if !bodyIsOK {
      calls := [SetHeader(ScannedHeader, "true"), Exit(BadRequest, "")];
    } else {
      calls := [SetHeader(ScannedHeader, "true")];
    }
  }

  /**
   * End to end: a request is forwarded exactly when its body was fetched,
   * partitioned without error, and every unit of it scanned clean.
   */
  lemma ForwardedIffAllClean(requestHeaders: RequestHeaders, rawBody: Result<Bytes, string>,
                             parseMediaType: string -> Result<Body.MediaType, string>,
                             newReader: (Bytes, string) -> Body.PartStream,
                             net: nat -> Icap.IcapOracle)
    requires ContentTypeIndexable(requestHeaders)
    ensures |Respond(OutcomeOf(requestHeaders, rawBody, parseMediaType, newReader, net))| == 1 <==>
      && rawBody.Success?
      && var p := Body.Partition(GetContentType(requestHeaders), rawBody.value, parseMediaType, newReader);
         p.failure.None? && forall j :: 0 <= j < |p.units| ==> Body.Clean(net, j)
  {
    if rawBody.Success? {
      var p := Body.Partition(GetContentType(requestHeaders), rawBody.value, parseMediaType, newReader);
      Body.RunOkIffAllClean(p, net, 0);
    }
  }

  /**
   * When the partitioning fails (a content type that does not parse, a
   * broken multipart stream, an unreadable part) and no unit before the
   * failure was unclean, the request ends in 500 with the header "false".
   */
  lemma PartitionFailureIsServerError(requestHeaders: RequestHeaders, body: Bytes,
                                      parseMediaType: string -> Result<Body.MediaType, string>,
                                      newReader: (Bytes, string) -> Body.PartStream,
                                      net: nat -> Icap.IcapOracle)
    requires ContentTypeIndexable(requestHeaders)
    requires var p := Body.Partition(GetContentType(requestHeaders), body, parseMediaType, newReader);
      p.failure.Some? && forall j :: 0 <= j < |p.units| ==> Body.Clean(net, j)
    ensures Respond(OutcomeOf(requestHeaders, Success(body), parseMediaType, newReader, net)) ==
      [SetHeader(ScannedHeader, "false"), Exit(InternalServerError, "")]
  {
    var p := Body.Partition(GetContentType(requestHeaders), body, parseMediaType, newReader);
    Body.RunAllClean(p, net, 0);
  }

  /** A non-multipart body that the scanner answers with 204 is forwarded with the header "true". */
  lemma CleanPlainBodyForwarded(requestHeaders: RequestHeaders, body: Bytes,
                                parseMediaType: string -> Result<Body.MediaType, string>,
                                newReader: (Bytes, string) -> Body.PartStream,
                                net: nat -> Icap.IcapOracle)
    requires ContentTypeIndexable(requestHeaders)
    requires parseMediaType(GetContentType(requestHeaders)).Success?
    requires !Body.HasPrefix(parseMediaType(GetContentType(requestHeaders)).value.mediaType, Body.MultipartPrefix)
    requires |body| > 0
    requires Icap.Completed(net(0)) && net(0).respmodReply.value.statusCode == Icap.NoModificationsNeeded
    ensures Respond(OutcomeOf(requestHeaders, Success(body), parseMediaType, newReader, net)) ==
      [SetHeader(ScannedHeader, "true")]
  {
    Body.WholeBodyScannedOnce(GetContentType(requestHeaders), body, parseMediaType, newReader, net);
  }

  /** A body the host could not buffer ends in 413 with the header "false" (that nothing is scanned then is
      stated by `DoAccess`'s `rawBody.Failure? ==> scanned == []`). */
  lemma TooLargeBodyRejected(requestHeaders: RequestHeaders,
                             parseMediaType: string -> Result<Body.MediaType, string>,
                             newReader: (Bytes, string) -> Body.PartStream,
                             net: nat -> Icap.IcapOracle)
    requires ContentTypeIndexable(requestHeaders)
    ensures Respond(OutcomeOf(requestHeaders, Failure(TooLargeMessage), parseMediaType, newReader, net)) ==
      [SetHeader(ScannedHeader, "false"), Exit(PayloadTooLarge, "")]
  {
  }
}
