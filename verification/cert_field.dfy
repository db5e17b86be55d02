/** The certificate-number field of src/lib/ocr.ts:

      (?:certificate|cert)[\s:]*(?:no|number|#)[\s:]*([a-zA-Z0-9-]+)      flag i

    Two keyword alternations, each followed by a separator run, then a greedy
    run of letters, digits and hyphens. Described, like the other fields, by
    the paths through the pattern and the order a backtracking engine tries
    them. */
module CertField {
  import opened Base
  import opened Text
  import TokenField

  /** The first alternation, in the order the pattern lists it. */
  const Leads: seq<string> := ["certificate", "cert"]

  /** The second alternation, in the order the pattern lists it. */
  const Markers: seq<string> := ["no", "number", "#"]

  /** `mid` is where the marker starts (the end of the first separator run). */
  datatype Path = Path(start: nat, lead: nat, mid: nat, marker: nat, capStart: nat, capEnd: nat)

  predicate IsPath(s: string, x: Path) {
    && x.lead < |Leads| && LitAt(s, x.start, Leads[x.lead])
    && x.start + |Leads[x.lead]| <= x.mid <= |s|
    && AllSep(s, x.start + |Leads[x.lead]|, x.mid)
    && x.marker < |Markers| && LitAt(s, x.mid, Markers[x.marker])
    && x.mid + |Markers[x.marker]| <= x.capStart <= x.capEnd <= |s|
    && AllSep(s, x.mid + |Markers[x.marker]|, x.capStart)
    && TokenField.TokenText(TokenField.CertRun, s[x.capStart..x.capEnd])
  }

  /** The engine's order: leftmost start, earlier lead, longer first separator,
      earlier marker, longer second separator, longer capture. */
  predicate Before(x: Path, y: Path) {
    || x.start < y.start
    || (x.start == y.start && x.lead < y.lead)
    || (x.start == y.start && x.lead == y.lead && x.mid > y.mid)
    || (x.start == y.start && x.lead == y.lead && x.mid == y.mid && x.marker < y.marker)
    || (x.start == y.start && x.lead == y.lead && x.mid == y.mid && x.marker == y.marker
        && x.capStart > y.capStart)
    || (x.start == y.start && x.lead == y.lead && x.mid == y.mid && x.marker == y.marker
        && x.capStart == y.capStart && x.capEnd > y.capEnd)
  }

  ghost predicate IsFirstPath(s: string, x: Path) {
    IsPath(s, x) && forall y :: IsPath(s, y) ==> !Before(y, x)
  }

  lemma FirstPathUnique(s: string, x: Path, y: Path)
    requires IsFirstPath(s, x) && IsFirstPath(s, y)
    ensures x == y
  {
  }

  /** A marker starts with `n` or `#`, never a separator character, so the
      first `[\s:]*` takes its whole run. */
  lemma MarkerStartsAfterSeparators(s: string, k: nat, mid: nat, marker: nat)
    requires k <= mid <= |s| && AllSep(s, k, mid)
    requires marker < |Markers| && LitAt(s, mid, Markers[marker])
    ensures mid == SepEnd(s, k)
  {
    SepRunBound(s, k, mid);
    assert Lower(s[mid]) == Markers[marker][0];
  }

  /** `y` is a path that agrees with the search so far up to the marker. */
  predicate SameMid(s: string, y: Path, i: nat, lead: nat, mid: nat) {
    IsPath(s, y) && y.start == i && y.lead == lead && y.mid == mid
  }

  /** Markers tried in order from `a` at offset `mid`. */
  function TryMarker(s: string, i: nat, lead: nat, mid: nat, a: nat): (r: Option<Path>)
    requires lead < |Leads| && LitAt(s, i, Leads[lead])
    requires i + |Leads[lead]| <= mid <= |s| && AllSep(s, i + |Leads[lead]|, mid)
    requires a <= |Markers|
    ensures r.Some? ==> IsPath(s, r.value) && r.value.start == i && r.value.lead == lead
    ensures r.Some? ==> r.value.mid == mid && a <= r.value.marker
    ensures r.Some? ==> forall y :: SameMid(s, y, i, lead, mid) && a <= y.marker ==> !Before(y, r.value)
    ensures r.None? ==> forall y :: SameMid(s, y, i, lead, mid) ==> y.marker < a
    decreases |Markers| - a
  {
    if a == |Markers| then None
    else if LitAt(s, mid, Markers[a]) then
      var k := mid + |Markers[a]|;
      var m := SepEnd(s, k);
      forall y | IsPath(s, y) && y.start == i && y.lead == lead && y.mid == mid && y.marker == a
        ensures y.capStart == m
      {
        TokenField.CaptureStartsAfterSeparators(s, k, y.capStart, y.capEnd, TokenField.CertRun);
      }
      match TokenField.TokenEnd(s, TokenField.CertRun, m)
      case Some(e) => Some(Path(i, lead, mid, a, m, e))
      case None => TryMarker(s, i, lead, mid, a + 1)
    else TryMarker(s, i, lead, mid, a + 1)
  }

  /** Leads tried in order from `a` at start `i`. */
  function TryLead(s: string, i: nat, a: nat): (r: Option<Path>)
    requires a <= |Leads|
    ensures r.Some? ==> IsPath(s, r.value) && r.value.start == i && a <= r.value.lead
    ensures r.Some? ==> forall y :: IsPath(s, y) && y.start == i && a <= y.lead ==> !Before(y, r.value)
    ensures r.None? ==> forall y :: IsPath(s, y) && y.start == i ==> y.lead < a
    decreases |Leads| - a
  {
    if a == |Leads| then None
    else if LitAt(s, i, Leads[a]) then
      var k := i + |Leads[a]|;
      var mid := SepEnd(s, k);
      forall y | IsPath(s, y) && y.start == i && y.lead == a
        ensures y.mid == mid
      {
        MarkerStartsAfterSeparators(s, k, y.mid, y.marker);
      }
      match TryMarker(s, i, a, mid, 0)
      case Some(x) => Some(x)
      case None => TryLead(s, i, a + 1)
    else TryLead(s, i, a + 1)
  }

  function SearchFrom(s: string, i: nat): (r: Option<Path>)
    requires i <= |s|
    ensures r.Some? ==> IsPath(s, r.value) && i <= r.value.start
    ensures r.Some? ==> forall y :: IsPath(s, y) && i <= y.start ==> !Before(y, r.value)
    ensures r.None? ==> forall y :: IsPath(s, y) ==> y.start < i
    decreases |s| - i
  {
    match TryLead(s, i, 0)
    case Some(x) => Some(x)
    case None => if i == |s| then None else SearchFrom(s, i + 1)
  }

  function FirstMatch(s: string): (r: Option<Path>)
    ensures r.Some? ==> IsFirstPath(s, r.value)
    ensures r.None? ==> forall y :: !IsPath(s, y)
  {
    SearchFrom(s, 0)
  }

  /** `v` is what `extractCertificateDetails` stores: "" when no path exists,
      otherwise capture group 1 of the reported match. */
  ghost predicate IsFieldValue(s: string, v: string) {
    && ((forall y :: !IsPath(s, y)) ==> v == "")
    && (forall x :: IsFirstPath(s, x) ==> v == s[x.capStart..x.capEnd])
  }

  /** The field value: the capture, or "" when nothing matches (the capture has
      no white space, so trimming it changes nothing). */
  function Extract(s: string): (r: string)
    ensures IsFieldValue(s, r)
    ensures r == "" || TokenField.TokenText(TokenField.CertRun, r)
    ensures IsTrimmed(r)
  {
    match FirstMatch(s)
    case None => ""
    case Some(x) =>
      var t := s[x.capStart..x.capEnd];
      TokenField.TokenIsSolid(TokenField.CertRun, t);
      TrimOfTrimmed(t);
      forall y | IsFirstPath(s, y) ensures y == x {
        FirstPathUnique(s, x, y);
      }
      Trim(t)
  }
}
