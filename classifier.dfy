/**
 * `determineIsInfected`: reads three scanner-specific headers of an ICAP
 * response and says whether any of them reports an infection.
 */
module Classifier {
  import opened Http

  const InfectionFoundHeader := "X-Infection-Found"
  const VirusIdHeader := "X-Virus-ID"
  const FSecureResultHeader := "X-FSecure-Scan-Result"
  /** The X-Virus-ID value that some scanners send for a clean scan. */
  const NoThreats := "no threats"
  const Infected := "infected"

  /** The independent reasons a response can give for calling content infected. */
  datatype Signal = InfectionFound | VirusId | FSecureInfected

  /** The set of infection signals present in the headers; order plays no part in it. */
  function Signals(h: Header): (s: set<Signal>)
  {
    (if Get(h, InfectionFoundHeader) != "" then {InfectionFound} else {})
    + (if Get(h, VirusIdHeader) != "" && Get(h, VirusIdHeader) != NoThreats then {VirusId} else {})
    + (if Get(h, FSecureResultHeader) == Infected then {FSecureInfected} else {})
  }

  /** The classifier, checking the headers in the source's order and stopping at the first hit. */
  function IsInfected(h: Header): (infected: bool)
    ensures infected <==> Signals(h) != {}
    ensures infected <==>
      || Get(h, InfectionFoundHeader) != ""
      || (Get(h, VirusIdHeader) != "" && Get(h, VirusIdHeader) != NoThreats)
      || Get(h, FSecureResultHeader) == Infected
  {
    var infectionFound := Get(h, InfectionFoundHeader);
    if |infectionFound| > 0 then true
    else
      var virusID := Get(h, VirusIdHeader);
      if |virusID| > 0 && virusID != NoThreats then true
      else
        Get(h, FSecureResultHeader) == Infected
  }

  /** A response carrying none of the three headers is never classified as infected. */
  lemma NoSignalHeadersNotInfected(h: Header)
    requires Canonical(InfectionFoundHeader) !in h
    requires Canonical(VirusIdHeader) !in h
    requires Canonical(FSecureResultHeader) !in h
    ensures !IsInfected(h)
  {
  }

  /**
   * A response with a single header `key: value` is infected exactly when the
   * header is X-Infection-Found with a non-empty value, X-Virus-ID with a
   * non-empty value other than "no threats", or X-FSecure-Scan-Result with
   * the value "infected" (each name in any letter case).
   */
  lemma SingleHeader(key: string, value: string)
    ensures IsInfected(Add(map[], key, value)) <==>
      || (Canonical(key) == Canonical(InfectionFoundHeader) && value != "")
      || (Canonical(key) == Canonical(VirusIdHeader) && value != "" && value != NoThreats)
      || (Canonical(key) == Canonical(FSecureResultHeader) && value == Infected)
  {
    var h := Add(map[], key, value);
    var k := Canonical(key);
    assert [] + [value] == [value];
    assert h == map[k := [value]];
    assert Get(h, InfectionFoundHeader) == if k == Canonical(InfectionFoundHeader) then value else "";
    assert Get(h, VirusIdHeader) == if k == Canonical(VirusIdHeader) then value else "";
    assert Get(h, FSecureResultHeader) == if k == Canonical(FSecureResultHeader) then value else "";
  }

  /** The single-header cases of the repository's classifier test table. */
  lemma SingleHeaderTable()
    ensures !IsInfected(Add(map[], "foo", "not empty"))
    ensures IsInfected(Add(map[], "X-Infection-Found", "not empty"))
    ensures !IsInfected(Add(map[], "X-Virus-ID", "no threats"))
    ensures IsInfected(Add(map[], "X-Virus-ID", "not empty"))
    ensures !IsInfected(Add(map[], "X-FSecure-Scan-Result", "not empty"))
    ensures IsInfected(Add(map[], "X-FSecure-Scan-Result", "infected"))
    ensures !IsInfected(Add(map[], "X-FSecure-Scan-Result", ""))
  {
    SingleHeader("foo", "not empty");
    SingleHeader("X-Infection-Found", "not empty");
    SingleHeader("X-Virus-ID", "no threats");
    SingleHeader("X-Virus-ID", "not empty");
    SingleHeader("X-FSecure-Scan-Result", "not empty");
    SingleHeader("X-FSecure-Scan-Result", "infected");
    SingleHeader("X-FSecure-Scan-Result", "");
  }

  /**
   * A clean X-Virus-ID does not mask an infected X-FSecure-Scan-Result: the
   * multiple-header case of the repository's test table, for any header set
   * that holds exactly those two values.
   */
  lemma CleanVirusIdDoesNotMaskFSecure(h: Header)
    requires Get(h, VirusIdHeader) == NoThreats
    requires Get(h, FSecureResultHeader) == Infected
    ensures IsInfected(h)
  {
  }

  /** The multiple-header test: X-Virus-ID "no threats" added, then X-FSecure-Scan-Result "infected". */
  lemma MultipleHeadersTable()
    ensures IsInfected(Add(Add(map[], "X-Virus-ID", "no threats"), "X-FSecure-Scan-Result", "infected"))
  {
    var h0 := Add(map[], "X-Virus-ID", "no threats");
    var h := Add(h0, "X-FSecure-Scan-Result", "infected");
    assert Canonical(FSecureResultHeader) !in h0;
    assert Get(h, FSecureResultHeader) == Infected;
  }
}
