/**
 * The parts of Go's `net/http` header handling that the scan logic relies on:
 * an `http.Header` is a map from canonical header names to lists of values;
 * `Get`, `Set` and `Add` canonicalise the name they are given before touching
 * the map, which makes lookups insensitive to the case of ASCII letters.
 */
module Http {

  /** A raw byte, as in Go's `[]byte`. */
  newtype byte = b: int | 0 <= b < 256

  type Bytes = seq<byte>

  /** `http.Header` (and `textproto.MIMEHeader`): canonical name -> values. */
  type Header = map<string, seq<string>>

  /** The bytes allowed in an HTTP header field name (a "token"). */
  predicate IsTokenChar(c: char) {
    || ('a' <= c <= 'z')
    || ('A' <= c <= 'Z')
    || ('0' <= c <= '9')
    || c in "!#$%&'*+-.^_`|~"
  }

  predicate IsToken(s: string) {
    forall i :: 0 <= i < |s| ==> IsTokenChar(s[i])
  }

  function Lower(c: char): char {
    if 'A' <= c <= 'Z' then (c as int + 32) as char else c
  }

  /** One step of canonicalisation: upper-case after a '-' or at the start, lower-case elsewhere. */
  function AdjustCase(c: char, upper: bool): char {
    if upper && 'a' <= c <= 'z' then (c as int - 32) as char
    else if !upper && 'A' <= c <= 'Z' then (c as int + 32) as char
    else c
  }

  function CaseFrom(s: string, upper: bool): (r: string)
    ensures |r| == |s|
  {
    if s == [] then []
    else
      var c := AdjustCase(s[0], upper);
      [c] + CaseFrom(s[1..], c == '-')
  }

  /**
   * `textproto.CanonicalMIMEHeaderKey`: a name made only of token bytes gets
   * its first letter and every letter after a '-' upper-cased and all other
   * letters lower-cased; any other name is returned unchanged.
   */
  function Canonical(key: string): (r: string)
    ensures |r| == |key|
  {
    if IsToken(key) then CaseFrom(key, true) else key
  }

  /** `Header.Get`: the first value stored under the canonical name, or "" when there is none. */
  function Get(h: Header, key: string): (v: string)
    ensures Canonical(key) !in h || h[Canonical(key)] == [] ==> v == ""
    ensures Canonical(key) in h && h[Canonical(key)] != [] ==> v == h[Canonical(key)][0]
  {
    var k := Canonical(key);
    if k in h && |h[k]| > 0 then h[k][0] else ""
  }

  /** `Header.Set`: replace the values of the canonical name with the one value given. */
  function Set(h: Header, key: string, value: string): (r: Header)
    ensures Get(r, key) == value
    ensures forall k :: Canonical(k) != Canonical(key) ==> Get(r, k) == Get(h, k)
  {
    h[Canonical(key) := [value]]
  }

  /** `Header.Add`: append a value to those of the canonical name. */
  function Add(h: Header, key: string, value: string): (r: Header)
    ensures Canonical(key) in r &&
            r[Canonical(key)] == (if Canonical(key) in h then h[Canonical(key)] else []) + [value]
    ensures Canonical(key) in h && h[Canonical(key)] != [] ==> Get(r, key) == Get(h, key)
    ensures Canonical(key) !in h || h[Canonical(key)] == [] ==> Get(r, key) == value
    ensures forall k :: Canonical(k) != Canonical(key) ==> Get(r, k) == Get(h, k)
  {
    var k := Canonical(key);
    h[k := (if k in h then h[k] else []) + [value]]
  }

  lemma {:induction false} CaseFromIsToken(s: string, upper: bool)
    requires IsToken(s)
    ensures IsToken(CaseFrom(s, upper))
  {
    if s != [] {
      CaseFromIsToken(s[1..], AdjustCase(s[0], upper) == '-');
    }
  }

  lemma {:induction false} CaseFromIdempotent(s: string, upper: bool)
    ensures CaseFrom(CaseFrom(s, upper), upper) == CaseFrom(s, upper)
  {
    if s != [] {
      var c := AdjustCase(s[0], upper);
      assert AdjustCase(c, upper) == c;
      CaseFromIdempotent(s[1..], c == '-');
      assert CaseFrom(s, upper)[1..] == CaseFrom(s[1..], c == '-');
    }
  }

  /** Canonicalising a canonical name changes nothing. */
  lemma CanonicalIdempotent(key: string)
    ensures Canonical(Canonical(key)) == Canonical(key)
  {
    if IsToken(key) {
      CaseFromIsToken(key, true);
      CaseFromIdempotent(key, true);
    }
  }

  lemma {:induction false} CaseFromIgnoresCase(a: string, b: string, upper: bool)
    requires |a| == |b|
    requires forall i :: 0 <= i < |a| ==> Lower(a[i]) == Lower(b[i])
    ensures CaseFrom(a, upper) == CaseFrom(b, upper)
  {
    if a != [] {
      var c := AdjustCase(a[0], upper);
      assert Lower(a[0]) == Lower(b[0]);
      assert AdjustCase(b[0], upper) == c;
      CaseFromIgnoresCase(a[1..], b[1..], c == '-');
    }
  }

  /** Two token names that differ only in the case of ASCII letters have the same canonical form. */
  lemma CanonicalIgnoresCase(a: string, b: string)
    requires IsToken(a) && IsToken(b) && |a| == |b|
    requires forall i :: 0 <= i < |a| ==> Lower(a[i]) == Lower(b[i])
    ensures Canonical(a) == Canonical(b)
  {
    CaseFromIgnoresCase(a, b, true);
  }

  /** Hence `Header.Get` does not see the case of the name it is asked for. */
  lemma GetIgnoresCase(h: Header, a: string, b: string)
    requires IsToken(a) && IsToken(b) && |a| == |b|
    requires forall i :: 0 <= i < |a| ==> Lower(a[i]) == Lower(b[i])
    ensures Get(h, a) == Get(h, b)
  {
    CanonicalIgnoresCase(a, b);
  }

  /** Looking a header up by its canonical name finds what looking it up by any spelling finds. */
  lemma GetCanonical(h: Header, key: string)
    ensures Get(h, Canonical(key)) == Get(h, key)
  {
    CanonicalIdempotent(key);
  }
}
