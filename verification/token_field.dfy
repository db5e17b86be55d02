/** Fields whose pattern ends in a self-delimiting token and nothing after it:

      rollNumber   (?:roll|registration|reg|student id)[\s:]*([a-zA-Z0-9]+)
      dateOfBirth  (?:date of birth|dob|born)[\s:]*(\d{1,2}[-/.]\d{1,2}[-/.]\d{2,4})
      year         (?:year|graduated|completed|issued)[\s:]*(\d{4})

    (src/lib/ocr.ts, all with flag i). As in `LazyField`, `IsPath` describes one
    way the pattern matches and `Before` the order a backtracking engine tries
    them; greedy quantifiers try the longest capture first. */
module TokenField {
  import opened Base
  import opened Text

  /** The capture group's own pattern. */
  datatype Token =
    | AlnumRun    // [a-zA-Z0-9]+
    | CertRun     // [a-zA-Z0-9-]+
    | FourDigits  // \d{4}
    | DateToken   // \d{1,2}[-/.]\d{1,2}[-/.]\d{2,4}

  predicate IsCertChar(c: char) {
    IsAlnum(c) || c == '-'
  }

  predicate IsDateSep(c: char) {
    c == '-' || c == '/' || c == '.'
  }

  predicate AllDigits(t: string, from: nat, to: nat)
    requires to <= |t|
  {
    forall j :: from <= j < to ==> IsDigit(t[j])
  }

  /** `t` is `d1` digits, a separator, `d2` digits, a separator and 2 to 4 digits. */
  predicate DateSplit(t: string, d1: nat, d2: nat) {
    && 1 <= d1 <= 2 && 1 <= d2 <= 2
    && d1 + d2 + 4 <= |t| <= d1 + d2 + 6
    && AllDigits(t, 0, d1) && IsDateSep(t[d1])
    && AllDigits(t, d1 + 1, d1 + 1 + d2) && IsDateSep(t[d1 + 1 + d2])
    && AllDigits(t, d1 + d2 + 2, |t|)
  }

  /** The whole of `t` matches `\d{1,2}[-/.]\d{1,2}[-/.]\d{2,4}`. */
  predicate IsDateText(t: string) {
    exists d1: nat, d2: nat | d1 <= 2 && d2 <= 2 :: DateSplit(t, d1, d2)
  }

  /** The whole of `t` matches the token. */
  predicate TokenText(tok: Token, t: string) {
    match tok
    case AlnumRun => |t| > 0 && forall j :: 0 <= j < |t| ==> IsAlnum(t[j])
    case CertRun => |t| > 0 && forall j :: 0 <= j < |t| ==> IsCertChar(t[j])
    case FourDigits => |t| == 4 && AllDigits(t, 0, 4)
    case DateToken => IsDateText(t)
  }

  /** A token neither starts with a separator character nor ends in white
      space; so a greedy `[\s:]*` before it cannot give any of its run back. */
  lemma TokenIsSolid(tok: Token, t: string)
    requires TokenText(tok, t)
    ensures |t| > 0 && !IsSepChar(t[0]) && !IsSpace(t[|t| - 1])
  {
    if tok.DateToken? {
      var d1: nat, d2: nat :| d1 <= 2 && d2 <= 2 && DateSplit(t, d1, d2);
      assert IsDigit(t[0]) && IsDigit(t[|t| - 1]);
    }
  }

  /** End of the longest digit run starting at `p`. */
  function DigitEnd(s: string, p: nat): (r: nat)
    requires p <= |s|
    ensures p <= r <= |s| && AllDigits(s, p, r)
    ensures r == |s| || !IsDigit(s[r])
    decreases |s| - p
  {
    if p < |s| && IsDigit(s[p]) then DigitEnd(s, p + 1) else p
  }

  lemma DigitEndAt(s: string, p: nat, q: nat)
    requires p <= q <= |s| && AllDigits(s, p, q)
    requires q == |s| || !IsDigit(s[q])
    ensures DigitEnd(s, p) == q
    decreases |s| - p
  {
    if p < q {
      DigitEndAt(s, p + 1, q);
    }
  }

  /** Every digit run from `p` ends no later than `DigitEnd(s, p)`. */
  lemma DigitRunBound(s: string, p: nat, q: nat)
    requires p <= q <= |s| && AllDigits(s, p, q)
    ensures q <= DigitEnd(s, p)
    decreases |s| - p
  {
    if p < q {
      DigitRunBound(s, p + 1, q);
    }
  }

  /** The characters `[a-zA-Z0-9]+` or `[a-zA-Z0-9-]+` repeats. */
  predicate IsRunChar(tok: Token, c: char)
    requires tok.AlnumRun? || tok.CertRun?
  {
    if tok.AlnumRun? then IsAlnum(c) else IsCertChar(c)
  }

  lemma RunChars(s: string, tok: Token, p: nat, q: nat)
    requires tok.AlnumRun? || tok.CertRun?
    requires p <= q <= |s| && TokenText(tok, s[p..q])
    ensures forall j :: p <= j < q ==> IsRunChar(tok, s[j])
  {
    var t := s[p..q];
    assert forall j :: p <= j < q ==> s[j] == t[j - p];
  }

  /** Every run of token characters from `p` ends no later than `RunEnd(s, tok, p)`. */
  lemma RunBound(s: string, tok: Token, p: nat, q: nat)
    requires tok.AlnumRun? || tok.CertRun?
    requires p <= q <= |s| && forall j :: p <= j < q ==> IsRunChar(tok, s[j])
    ensures q <= RunEnd(s, tok, p)
    decreases |s| - p
  {
    if p < q {
      RunBound(s, tok, p + 1, q);
    }
  }

  function RunEnd(s: string, tok: Token, p: nat): (r: nat)
    requires tok.AlnumRun? || tok.CertRun?
    requires p <= |s|
    ensures p <= r <= |s|
    ensures TokenText(tok, s[p..r]) || r == p
    ensures r == |s| || (tok.AlnumRun? && !IsAlnum(s[r])) || (tok.CertRun? && !IsCertChar(s[r]))
    decreases |s| - p
  {
    if p < |s| && ((tok.AlnumRun? && IsAlnum(s[p])) || (tok.CertRun? && IsCertChar(s[p]))) then
      var r := RunEnd(s, tok, p + 1);
      assert s[p..r] == [s[p]] + s[p + 1..r];
      r
    else p
  }

  /** Within `s`, a date decomposition of `s[cs..e]` is forced: the first two
      digit runs are maximal, so they end where `DigitEnd` says. */
  lemma DateSplitForced(s: string, cs: nat, e: nat, d1: nat, d2: nat)
    requires cs <= e <= |s| && DateSplit(s[cs..e], d1, d2)
    ensures DigitEnd(s, cs) == cs + d1
    ensures cs + d1 < |s| && DigitEnd(s, cs + d1 + 1) == cs + d1 + 1 + d2
    ensures cs + d1 + 1 + d2 < |s| && AllDigits(s, cs + d1 + d2 + 2, e)
  {
    var t := s[cs..e];
    assert AllDigits(s, cs, cs + d1) by {
      assert forall j :: cs <= j < cs + d1 ==> s[j] == t[j - cs];
    }
    assert !IsDigit(s[cs + d1]) by { assert s[cs + d1] == t[d1]; }
    DigitEndAt(s, cs, cs + d1);
    var a := cs + d1;
    assert AllDigits(s, a + 1, a + 1 + d2) by {
      assert forall j :: a + 1 <= j < a + 1 + d2 ==> s[j] == t[j - cs];
    }
    assert !IsDigit(s[a + 1 + d2]) by { assert s[a + 1 + d2] == t[d1 + 1 + d2]; }
    DigitEndAt(s, a + 1, a + 1 + d2);
    assert AllDigits(s, cs + d1 + d2 + 2, e) by {
      assert forall j :: cs + d1 + d2 + 2 <= j < e ==> s[j] == t[j - cs];
    }
  }

  /** Digit runs around two separators, read off `s`, form a date token. */
  lemma DateFromRuns(s: string, cs: nat, a: nat, b: nat, e: nat)
    requires cs + 1 <= a <= cs + 2 && a + 2 <= b <= a + 3 && b + 3 <= e <= b + 5 && e <= |s|
    requires AllDigits(s, cs, a) && IsDateSep(s[a])
    requires AllDigits(s, a + 1, b) && IsDateSep(s[b])
    requires AllDigits(s, b + 1, e)
    ensures DateSplit(s[cs..e], a - cs, b - a - 1)
  {
    var t := s[cs..e];
    assert forall j :: 0 <= j < |t| ==> t[j] == s[cs + j];
  }

  /** A date token at `cs`: the digit runs before the two separators are forced,
      and `\d{2,4}` takes at most four digits. */
  function DateEnd(s: string, cs: nat): (r: Option<nat>)
    requires cs <= |s|
    ensures r.Some? ==> cs <= r.value <= |s| && IsDateText(s[cs..r.value])
    ensures r.Some? ==> forall e: nat :: cs <= e <= |s| && IsDateText(s[cs..e]) ==> e <= r.value
    ensures r.None? ==> forall e: nat :: cs <= e <= |s| ==> !IsDateText(s[cs..e])
  {
    var a := DigitEnd(s, cs);
    var b := if a < |s| then DigitEnd(s, a + 1) else a;
    var c := if b < |s| then DigitEnd(s, b + 1) else b;
    forall e: nat, d1: nat, d2: nat | cs <= e <= |s| && DateSplit(s[cs..e], d1, d2)
      ensures a == cs + d1 && b == a + 1 + d2 && e <= c && e <= b + 5
    {
      DateSplitForced(s, cs, e, d1, d2);
      DigitRunBound(s, b + 1, e);
    }
    if !(cs + 1 <= a <= cs + 2 && a < |s| && IsDateSep(s[a])) then None
    else if !(a + 2 <= b <= a + 3 && b < |s| && IsDateSep(s[b])) then None
    else
      var e := if c > b + 5 then b + 5 else c;
      if e < b + 3 then None
      else
        DateFromRuns(s, cs, a, b, e);
        Some(e)
  }

  /** A four-digit capture is exactly four digits of `s`. */
  lemma FourDigitsShape(s: string, cs: nat, e: nat)
    requires cs <= e <= |s| && TokenText(FourDigits, s[cs..e])
    ensures e == cs + 4 && AllDigits(s, cs, cs + 4)
  {
    var t := s[cs..e];
    assert forall j :: cs <= j < e ==> s[j] == t[j - cs];
  }

  lemma FourDigitsToken(s: string, cs: nat)
    requires cs + 4 <= |s| && AllDigits(s, cs, cs + 4)
    ensures TokenText(FourDigits, s[cs..cs + 4])
  {
    var t := s[cs..cs + 4];
    assert forall j :: 0 <= j < 4 ==> t[j] == s[cs + j];
  }

  /** Where the greedy token starting at `cs` ends, if it matches there: the
      longest end that makes `s[cs..e]` a token. */
  function TokenEnd(s: string, tok: Token, cs: nat): (r: Option<nat>)
    requires cs <= |s|
    ensures r.Some? ==> cs <= r.value <= |s| && TokenText(tok, s[cs..r.value])
    ensures r.Some? ==> forall e: nat :: cs <= e <= |s| && TokenText(tok, s[cs..e]) ==> e <= r.value
    ensures r.None? ==> forall e: nat :: cs <= e <= |s| ==> !TokenText(tok, s[cs..e])
  {
    match tok
    case DateToken => DateEnd(s, cs)
    case FourDigits =>
      forall e: nat | cs <= e <= |s| && TokenText(tok, s[cs..e])
        ensures e == cs + 4 && AllDigits(s, cs, cs + 4)
      {
        FourDigitsShape(s, cs, e);
      }
      if cs + 4 <= |s| && AllDigits(s, cs, cs + 4) then
        FourDigitsToken(s, cs);
        Some(cs + 4)
      else None
    case _ =>
      var e := RunEnd(s, tok, cs);
      forall e': nat | cs <= e' <= |s| && TokenText(tok, s[cs..e'])
        ensures e' <= e
      {
        RunChars(s, tok, cs, e');
        RunBound(s, tok, cs, e');
      }
      if e == cs then None else Some(e)
  }

  /** Keywords are written in lower case. */
  datatype Pattern = Pattern(keywords: seq<string>, tok: Token)

  datatype Path = Path(start: nat, alt: nat, capStart: nat, capEnd: nat)

  predicate IsPath(s: string, pat: Pattern, x: Path) {
    && x.alt < |pat.keywords|
    && LitAt(s, x.start, pat.keywords[x.alt])
    && x.start + |pat.keywords[x.alt]| <= x.capStart <= x.capEnd <= |s|
    && AllSep(s, x.start + |pat.keywords[x.alt]|, x.capStart)
    && TokenText(pat.tok, s[x.capStart..x.capEnd])
  }

  /** The engine tries `x` before `y`: leftmost start, earlier alternative,
      longer separator, longer capture. */
  predicate Before(x: Path, y: Path) {
    || x.start < y.start
    || (x.start == y.start && x.alt < y.alt)
    || (x.start == y.start && x.alt == y.alt && x.capStart > y.capStart)
    || (x.start == y.start && x.alt == y.alt && x.capStart == y.capStart && x.capEnd > y.capEnd)
  }

  ghost predicate IsFirstPath(s: string, pat: Pattern, x: Path) {
    IsPath(s, pat, x) && forall y :: IsPath(s, pat, y) ==> !Before(y, x)
  }

  lemma FirstPathUnique(s: string, pat: Pattern, x: Path, y: Path)
    requires IsFirstPath(s, pat, x) && IsFirstPath(s, pat, y)
    ensures x == y
  {
  }

  /** After the keyword, `[\s:]*` takes the whole separator run: a token cannot
      start inside it. */
  lemma CaptureStartsAfterSeparators(s: string, k: nat, cs: nat, ce: nat, tok: Token)
    requires k <= cs <= ce <= |s| && AllSep(s, k, cs)
    requires TokenText(tok, s[cs..ce])
    ensures cs == SepEnd(s, k)
  {
    SepRunBound(s, k, cs);
    TokenIsSolid(tok, s[cs..ce]);
  }

  function TryAlt(s: string, pat: Pattern, i: nat, a: nat): (r: Option<Path>)
    requires a <= |pat.keywords|
    ensures r.Some? ==> IsPath(s, pat, r.value) && r.value.start == i && a <= r.value.alt
    ensures r.Some? ==> forall y :: IsPath(s, pat, y) && y.start == i && a <= y.alt ==> !Before(y, r.value)
    ensures r.None? ==> forall y :: IsPath(s, pat, y) && y.start == i ==> y.alt < a
    decreases |pat.keywords| - a
  {
    if a == |pat.keywords| then None
    else
      var kw := pat.keywords[a];
      if LitAt(s, i, kw) then
        var m := SepEnd(s, i + |kw|);
        forall y | IsPath(s, pat, y) && y.start == i && y.alt == a
          ensures y.capStart == m
        {
          CaptureStartsAfterSeparators(s, i + |kw|, y.capStart, y.capEnd, pat.tok);
        }
        match TokenEnd(s, pat.tok, m)
        case Some(e) => Some(Path(i, a, m, e))
        case None => TryAlt(s, pat, i, a + 1)
      else TryAlt(s, pat, i, a + 1)
  }

  function SearchFrom(s: string, pat: Pattern, i: nat): (r: Option<Path>)
    requires i <= |s|
    ensures r.Some? ==> IsPath(s, pat, r.value) && i <= r.value.start
    ensures r.Some? ==> forall y :: IsPath(s, pat, y) && i <= y.start ==> !Before(y, r.value)
    ensures r.None? ==> forall y :: IsPath(s, pat, y) ==> y.start < i
    decreases |s| - i
  {
    match TryAlt(s, pat, i, 0)
    case Some(x) => Some(x)
    case None => if i == |s| then None else SearchFrom(s, pat, i + 1)
  }

  function FirstMatch(s: string, pat: Pattern): (r: Option<Path>)
    ensures r.Some? ==> IsFirstPath(s, pat, r.value)
    ensures r.None? ==> forall y :: !IsPath(s, pat, y)
  {
    SearchFrom(s, pat, 0)
  }

  /** `v` is what `extractCertificateDetails` stores for the pattern: "" when no
      path exists, otherwise capture group 1 of the reported match. */
  ghost predicate IsFieldValue(s: string, pat: Pattern, v: string) {
    && ((forall y :: !IsPath(s, pat, y)) ==> v == "")
    && (forall x :: IsFirstPath(s, pat, x) ==> v == s[x.capStart..x.capEnd])
  }

  /** The field value: capture group 1 trimmed, or "" when nothing matches. A
      token has no white space at its ends, so the trim changes nothing. */
  function Extract(s: string, pat: Pattern): (r: string)
    ensures IsFieldValue(s, pat, r)
    ensures r == "" || TokenText(pat.tok, r)
    ensures IsTrimmed(r)
  {
    match FirstMatch(s, pat)
    case None => ""
    case Some(x) =>
      var t := s[x.capStart..x.capEnd];
      TokenIsSolid(pat.tok, t);
      TrimOfTrimmed(t);
      forall y | IsFirstPath(s, pat, y) ensures y == x {
        FirstPathUnique(s, pat, x, y);
      }
      Trim(t)
  }
}
