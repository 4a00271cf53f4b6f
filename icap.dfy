/**
 * `scanPart`: one content unit is wrapped in a synthetic HTTP response and
 * submitted to the scanner with an ICAP OPTIONS request followed by a RESPMOD
 * request (RFC 3507, sections 4.10 and 4.5). Building a request and sending
 * it are calls into the ICAP client library and the network; each call of
 * `ScanPart` receives their outcomes as an `IcapOracle`.
 */
module Icap {
  import opened Wrappers
  import opened Http
  import Classifier

  /** ICAP status "no modifications needed" (RFC 3507, section 4.6). */
  const NoModificationsNeeded := 204

  datatype IcapMethod = Options | Respmod

  /** The `http.Response` that carries the unit's bytes inside the RESPMOD request. */
  datatype HttpEnvelope = HttpEnvelope(
    status: string,
    statusCode: int,
    proto: string,
    protoMajor: int,
    protoMinor: int,
    header: Header,
    contentLength: int,
    body: Bytes)

  /** A request handed to the ICAP client's `Do`. */
  datatype IcapRequest = IcapRequest(
    icapMethod: IcapMethod,
    url: string,
    httpResponse: Option<HttpEnvelope>,
    preview: Option<int>)

  datatype IcapResponse = IcapResponse(statusCode: int, header: Header, previewBytes: int)

  /**
   * What the library and the scanner do in one `scanPart` call: an error (or
   * none) from building each request, and the reply (or transport error)
   * for each request sent.
   */
  datatype IcapOracle = IcapOracle(
    optionsBuild: Option<string>,
    optionsReply: Result<IcapResponse, string>,
    respmodBuild: Option<string>,
    respmodReply: Result<IcapResponse, string>)

  datatype ScanError =
    | OptionsRequestError(msg: string)
    | OptionsTransportError(msg: string)
    | RespmodRequestError(msg: string)
    | RespmodTransportError(msg: string)

  /**
   * Go's `(bool, error)` result of `scanPart`, with the requests it sent and
   * the classifier's verdict it computed (only for the log) on a non-204 reply.
   */
  datatype PartScan = PartScan(ok: bool, err: Option<ScanError>, sent: seq<IcapRequest>, infected: Option<bool>)

  /** Every step of the exchange succeeded, so the scanner's RESPMOD reply is in hand. */
  predicate Completed(o: IcapOracle) {
    o.optionsBuild.None? && o.optionsReply.Success? && o.respmodBuild.None? && o.respmodReply.Success?
  }

  /** The verdict on one unit. */
  datatype ScanOutcome = Clean | NotClean | Failed(error: ScanError)

  /**
   * The decision rule of a scan, stated on its own: the error of the first
   * step that failed; otherwise clean exactly when the scanner answered 204.
   */
  function Outcome(o: IcapOracle): (v: ScanOutcome)
    ensures v.Failed? <==> !Completed(o)
    ensures v == Clean <==> Completed(o) && o.respmodReply.value.statusCode == NoModificationsNeeded
  {
    if o.optionsBuild.Some? then Failed(OptionsRequestError(o.optionsBuild.value))
    else if o.optionsReply.Failure? then Failed(OptionsTransportError(o.optionsReply.error))
    else if o.respmodBuild.Some? then Failed(RespmodRequestError(o.respmodBuild.value))
    else if o.respmodReply.Failure? then Failed(RespmodTransportError(o.respmodReply.error))
    else if o.respmodReply.value.statusCode == NoModificationsNeeded then Clean
    else NotClean
  }

  /** The synthetic "200 OK" HTTP/1.1 response that encapsulates the unit. */
  function Envelope(contentType: string, bodyBytes: Bytes): (e: HttpEnvelope)
    ensures e.statusCode == 200 && e.body == bodyBytes
    ensures e.contentLength == |bodyBytes|
    ensures Get(e.header, "Content-Type") == contentType
  {
    HttpEnvelope("200 OK", 200, "HTTP/1.1", 1, 1, Set(map[], "Content-Type", contentType), |bodyBytes|, bodyBytes)
  }

  function OptionsRequest(scannerURL: string): IcapRequest {
    IcapRequest(Options, scannerURL, None, None)
  }

  function RespmodRequest(scannerURL: string, e: HttpEnvelope, preview: int): IcapRequest {
    IcapRequest(Respmod, scannerURL, Some(e), Some(preview))
  }

  /** `scanPart`. */
  function ScanPart(scannerURL: string, fileName: string, contentType: string, bodyBytes: Bytes, o: IcapOracle): (r: PartScan)
    // fail-closed: an error is never a clean verdict
    ensures r.err.Some? ==> !r.ok
    // the result is the decision rule's verdict, whatever the reply headers say
    ensures r.err.None? <==> !Outcome(o).Failed?
    ensures r.err.Some? ==> r.err.value == Outcome(o).error
    ensures r.ok <==> Outcome(o) == Clean
    // the classifier runs, for the log only, on every other completed reply
    ensures r.infected.Some? <==> Completed(o) && o.respmodReply.value.statusCode != NoModificationsNeeded
    ensures r.infected.Some? ==> r.infected.value == Classifier.IsInfected(o.respmodReply.value.header)
  {
    var httpResp := Envelope(contentType, bodyBytes);
    if o.optionsBuild.Some? then
      PartScan(false, Some(OptionsRequestError(o.optionsBuild.value)), [], None)
    else
      var optReq := OptionsRequest(scannerURL);
      if o.optionsReply.Failure? then
        PartScan(false, Some(OptionsTransportError(o.optionsReply.error)), [optReq], None)
      else
        var optResp := o.optionsReply.value;
        if o.respmodBuild.Some? then
          PartScan(false, Some(RespmodRequestError(o.respmodBuild.value)), [optReq], None)
        else
          var req := RespmodRequest(scannerURL, httpResp, optResp.previewBytes);
          if o.respmodReply.Failure? then
            PartScan(false, Some(RespmodTransportError(o.respmodReply.error)), [optReq, req], None)
          else
            var resp := o.respmodReply.value;
            if resp.statusCode == NoModificationsNeeded then
              PartScan(true, None, [optReq, req], None)
            else
              var isInfected := Classifier.IsInfected(resp.header);
              PartScan(false, None, [optReq, req], Some(isInfected))
  }

  /**
   * What `scanPart` sends: nothing when the OPTIONS request cannot be built;
   * the OPTIONS request alone when it fails or the RESPMOD request cannot be
   * built; otherwise OPTIONS and then a RESPMOD that encapsulates the whole
   * unit (Content-Type and Content-Length set from it) with the preview size
   * the OPTIONS reply negotiated. Each error is that of the first failing step.
   */
  lemma ScanPartRequests(scannerURL: string, fileName: string, contentType: string, bodyBytes: Bytes,
                          o: IcapOracle, r: PartScan)
    requires r == ScanPart(scannerURL, fileName, contentType, bodyBytes, o)
    ensures o.optionsBuild.Some? ==> r.err == Some(OptionsRequestError(o.optionsBuild.value)) && r.sent == []
    ensures o.optionsBuild.None? && o.optionsReply.Failure? ==>
      r.err == Some(OptionsTransportError(o.optionsReply.error)) && r.sent == [OptionsRequest(scannerURL)]
    ensures o.optionsBuild.None? && o.optionsReply.Success? && o.respmodBuild.Some? ==>
      r.err == Some(RespmodRequestError(o.respmodBuild.value)) && r.sent == [OptionsRequest(scannerURL)]
    ensures o.optionsBuild.None? && o.optionsReply.Success? && o.respmodBuild.None? && o.respmodReply.Failure? ==>
      r.err == Some(RespmodTransportError(o.respmodReply.error))
    ensures |r.sent| <= 2
    ensures |r.sent| == 2 <==> o.optionsBuild.None? && o.optionsReply.Success? && o.respmodBuild.None?
    ensures |r.sent| == 2 ==>
      && r.sent[0] == OptionsRequest(scannerURL)
      && r.sent[1].icapMethod == Respmod && r.sent[1].url == scannerURL
      && r.sent[1].httpResponse.Some?
      && r.sent[1].httpResponse.value.contentLength == |bodyBytes|
      && r.sent[1].httpResponse.value.body == bodyBytes
      && Get(r.sent[1].httpResponse.value.header, "Content-Type") == contentType
      && r.sent[1].preview == Some(o.optionsReply.value.previewBytes)
  {
  }

  /** The two oracles agree except, perhaps, on the headers of the RESPMOD reply. */
  predicate SameExceptReplyHeaders(o1: IcapOracle, o2: IcapOracle) {
    && o1.optionsBuild == o2.optionsBuild
    && o1.optionsReply == o2.optionsReply
    && o1.respmodBuild == o2.respmodBuild
    && o1.respmodReply.Success? == o2.respmodReply.Success?
    && (o1.respmodReply.Failure? ==> o1.respmodReply.error == o2.respmodReply.error)
    && (o1.respmodReply.Success? ==>
          o1.respmodReply.value.statusCode == o2.respmodReply.value.statusCode)
  }

  /**
   * The reply headers, and so the classifier's verdict, never change whether
   * a unit is clean or whether the scan failed: only the status code decides.
   */
  lemma VerdictIgnoresReplyHeaders(scannerURL: string, fileName: string, contentType: string, bodyBytes: Bytes,
                                   o1: IcapOracle, o2: IcapOracle)
    requires SameExceptReplyHeaders(o1, o2)
    ensures ScanPart(scannerURL, fileName, contentType, bodyBytes, o1).ok == ScanPart(scannerURL, fileName, contentType, bodyBytes, o2).ok
    ensures ScanPart(scannerURL, fileName, contentType, bodyBytes, o1).err == ScanPart(scannerURL, fileName, contentType, bodyBytes, o2).err
  {
  }

  /**
   * A completed non-204 reply is not clean even when the classifier finds no
   * infection signal at all (for example X-Virus-ID "no threats" alone).
   */
  lemma NotCleanWithoutSignal(scannerURL: string, fileName: string, contentType: string, bodyBytes: Bytes, o: IcapOracle)
    requires Completed(o) && o.respmodReply.value.statusCode != NoModificationsNeeded
    requires !Classifier.IsInfected(o.respmodReply.value.header)
    ensures ScanPart(scannerURL, fileName, contentType, bodyBytes, o) ==
      PartScan(false, None, ScanPart(scannerURL, fileName, contentType, bodyBytes, o).sent, Some(false))
  {
  }
}
