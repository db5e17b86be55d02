/** Fields whose pattern ends in a lazy letter run and a terminator:

      (?:kw1|kw2|...)[\s:]{min,}([a-zA-Z\s]+?)(?:t1|t2|...)      flag i

    (`studentName`, `course` and `institution` in src/lib/ocr.ts). The result of
    `String.prototype.match` is described declaratively: a `Path` is one way the
    whole pattern can match, `IsPath` says that it does, and `Before` is the
    order in which a backtracking engine tries paths. The scanner is proved to
    return the path the engine reports: a valid path no valid path precedes. */
module LazyField {
  import opened Base
  import opened Text

  /** The capture class `[a-zA-Z\s]`; the `i` flag does not widen it. */
  predicate IsCaptureChar(c: char) {
    IsLetter(c) || IsSpace(c)
  }

  predicate AllCapture(s: string, from: nat, to: nat)
    requires to <= |s|
  {
    forall j :: from <= j < to ==> IsCaptureChar(s[j])
  }

  /** Keywords and terminators are written in lower case; `minSep` is 1 for
      `[\s:]+` and 0 for `[\s:]*`. */
  datatype Pattern = Pattern(keywords: seq<string>, minSep: nat, terminators: seq<string>)

  /** The keyword alternative taken, where the capture starts (the end of the
      separator run) and where it ends (the terminator's offset). */
  datatype Path = Path(start: nat, alt: nat, capStart: nat, capEnd: nat)

  /** After a keyword ending at `k`: a separator run `[k, cs)`, a capture
      `[cs, ce)` of word characters, and a terminator at `ce`. */
  predicate TailOk(s: string, pat: Pattern, k: nat, cs: nat, ce: nat) {
    && k + pat.minSep <= cs < ce <= |s|
    && AllSep(s, k, cs)
    && AllCapture(s, cs, ce)
    && AnyLitAt(s, ce, pat.terminators)
  }

  predicate IsPath(s: string, pat: Pattern, x: Path) {
    && x.alt < |pat.keywords|
    && LitAt(s, x.start, pat.keywords[x.alt])
    && TailOk(s, pat, x.start + |pat.keywords[x.alt]|, x.capStart, x.capEnd)
  }

  /** The engine tries `x` before `y`: leftmost start first, then the earlier
      keyword alternative, then the longer separator (greedy), then the shorter
      capture (lazy). */
  predicate Before(x: Path, y: Path) {
    || x.start < y.start
    || (x.start == y.start && x.alt < y.alt)
    || (x.start == y.start && x.alt == y.alt && x.capStart > y.capStart)
    || (x.start == y.start && x.alt == y.alt && x.capStart == y.capStart && x.capEnd < y.capEnd)
  }

  /** The match `String.prototype.match` reports. */
  ghost predicate IsFirstPath(s: string, pat: Pattern, x: Path) {
    IsPath(s, pat, x) && forall y :: IsPath(s, pat, y) ==> !Before(y, x)
  }

  /** Two paths that are both first are the same path: `Before` orders any two
      distinct paths. */
  lemma FirstPathUnique(s: string, pat: Pattern, x: Path, y: Path)
    requires IsFirstPath(s, pat, x) && IsFirstPath(s, pat, y)
    ensures x == y
  {
  }

  /** The lazy group grows one character at a time from `[cs, ce)` until a
      terminator follows it. */
  function LazyEnd(s: string, pat: Pattern, cs: nat, ce: nat): (r: Option<nat>)
    requires cs < ce <= |s| && AllCapture(s, cs, ce)
    ensures r.Some? ==> ce <= r.value <= |s| && AllCapture(s, cs, r.value)
    ensures r.Some? ==> AnyLitAt(s, r.value, pat.terminators)
    ensures r.Some? ==> forall e :: ce <= e < r.value ==> !AnyLitAt(s, e, pat.terminators)
    ensures r.None? ==> forall e :: ce <= e <= |s| && AllCapture(s, cs, e) ==> !AnyLitAt(s, e, pat.terminators)
    decreases |s| - ce
  {
    if AnyLitAt(s, ce, pat.terminators) then Some(ce)
    else if ce < |s| && IsCaptureChar(s[ce]) then LazyEnd(s, pat, cs, ce + 1)
    else None
  }

  /** The end of the shortest capture starting at `cs` that a terminator
      follows, if there is one. */
  function CaptureEnd(s: string, pat: Pattern, cs: nat): (r: Option<nat>)
    requires cs <= |s|
    ensures r.Some? ==> cs < r.value <= |s| && AllCapture(s, cs, r.value)
    ensures r.Some? ==> AnyLitAt(s, r.value, pat.terminators)
    ensures r.Some? ==> forall e :: cs < e < r.value ==> !AnyLitAt(s, e, pat.terminators)
    ensures r.None? ==> forall e :: cs < e <= |s| && AllCapture(s, cs, e) ==> !AnyLitAt(s, e, pat.terminators)
  {
    if cs < |s| && IsCaptureChar(s[cs]) then LazyEnd(s, pat, cs, cs + 1) else None
  }

  /** Backtracking over the greedy separator: capture starts `cs`, `cs - 1`, ...
      down to the shortest separator allowed. */
  function TrySep(s: string, pat: Pattern, k: nat, cs: nat): (r: Option<(nat, nat)>)
    requires k + pat.minSep <= cs <= |s| && AllSep(s, k, cs)
    ensures r.Some? ==> r.value.0 <= cs && TailOk(s, pat, k, r.value.0, r.value.1)
    ensures r.Some? ==> forall e: nat :: e < r.value.1 ==> !TailOk(s, pat, k, r.value.0, e)
    ensures r.Some? ==> forall c: nat, e: nat :: r.value.0 < c <= cs ==> !TailOk(s, pat, k, c, e)
    ensures r.None? ==> forall c: nat, e: nat :: c <= cs ==> !TailOk(s, pat, k, c, e)
    decreases cs
  {
    match CaptureEnd(s, pat, cs)
    case Some(e) => Some((cs, e))
    case None =>
      if cs > k + pat.minSep then TrySep(s, pat, k, cs - 1) else None
  }

  /** The priority-first tail after a keyword ending at `k`. */
  function TailAt(s: string, pat: Pattern, k: nat): (r: Option<(nat, nat)>)
    requires k <= |s|
    ensures r.Some? ==> TailOk(s, pat, k, r.value.0, r.value.1)
    ensures r.Some? ==> forall e: nat :: e < r.value.1 ==> !TailOk(s, pat, k, r.value.0, e)
    ensures r.Some? ==> forall c: nat, e: nat :: r.value.0 < c ==> !TailOk(s, pat, k, c, e)
    ensures r.None? ==> forall c: nat, e: nat :: !TailOk(s, pat, k, c, e)
  {
    var m := SepEnd(s, k);
    forall c: nat, e: nat | TailOk(s, pat, k, c, e)
      ensures c <= m
    {
      SepRunBound(s, k, c);
    }
    if k + pat.minSep <= m then TrySep(s, pat, k, m) else None
  }

  /** Keyword alternatives tried in order from `a` at start `i`. */
  function TryAlt(s: string, pat: Pattern, i: nat, a: nat): (r: Option<Path>)
    requires a <= |pat.keywords|
    ensures r.Some? ==> IsPath(s, pat, r.value) && r.value.start == i && a <= r.value.alt
    ensures r.Some? ==> forall y :: IsPath(s, pat, y) && y.start == i && a <= y.alt ==> !Before(y, r.value)
    ensures r.None? ==> forall y :: IsPath(s, pat, y) && y.start == i ==> y.alt < a
    decreases |pat.keywords| - a
  {
    if a == |pat.keywords| then None
    else
      var kw := pat.keywords[a];
      if LitAt(s, i, kw) then
        assert forall y :: IsPath(s, pat, y) && y.start == i && y.alt == a ==>
          TailOk(s, pat, i + |kw|, y.capStart, y.capEnd);
        match TailAt(s, pat, i + |kw|)
        case Some(t) => Some(Path(i, a, t.0, t.1))
        case None => TryAlt(s, pat, i, a + 1)
      else TryAlt(s, pat, i, a + 1)
  }

  /** Start offsets tried from `i` rightwards. */
  function SearchFrom(s: string, pat: Pattern, i: nat): (r: Option<Path>)
    requires i <= |s|
    ensures r.Some? ==> IsPath(s, pat, r.value) && i <= r.value.start
    ensures r.Some? ==> forall y :: IsPath(s, pat, y) && i <= y.start ==> !Before(y, r.value)
    ensures r.None? ==> forall y :: IsPath(s, pat, y) ==> y.start < i
    decreases |s| - i
  {
    match TryAlt(s, pat, i, 0)
    case Some(x) => Some(x)
    case None => if i == |s| then None else SearchFrom(s, pat, i + 1)
  }

  /** `text.match(pattern)`: the reported match, or none when no path exists. */
  function FirstMatch(s: string, pat: Pattern): (r: Option<Path>)
    ensures r.Some? ==> IsFirstPath(s, pat, r.value)
    ensures r.None? ==> forall y :: !IsPath(s, pat, y)
  {
    SearchFrom(s, pat, 0)
  }

  /** `v` is what `extractCertificateDetails` stores for the pattern: "" when no
      path exists, otherwise capture group 1 of the reported match, trimmed. */
  ghost predicate IsFieldValue(s: string, pat: Pattern, v: string) {
    && ((forall y :: !IsPath(s, pat, y)) ==> v == "")
    && (forall x :: IsFirstPath(s, pat, x) ==> v == Trim(s[x.capStart..x.capEnd]))
  }

  /** The field value: capture group 1 trimmed, or "" when nothing matches. */
  function Extract(s: string, pat: Pattern): (r: string)
    ensures IsFieldValue(s, pat, r)
    ensures IsTrimmed(r)
    ensures forall c :: c in r ==> IsCaptureChar(c)
  {
    match FirstMatch(s, pat)
    case None => ""
    case Some(x) =>
      forall y | IsFirstPath(s, pat, y) ensures y == x {
        FirstPathUnique(s, pat, x, y);
      }
      Trim(s[x.capStart..x.capEnd])
  }
}
