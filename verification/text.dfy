/** Character classes and string helpers with JavaScript's meaning: the white space
    of `\s` and `String.prototype.trim`, ASCII case folding, `includes`, and the
    case-insensitive literal test a regular expression with the `i` flag performs. */
module Text {

  /** The characters JavaScript's `\s` and `trim` treat as white space: the
      WhiteSpace and LineTerminator productions of ECMAScript. */
  predicate IsSpace(c: char) {
    || c == ' ' || c == '\t' || c == '\n' || c == '\r'
    || c == '\U{000B}' || c == '\U{000C}' || c == '\U{00A0}' || c == '\U{1680}'
    || ('\U{2000}' <= c <= '\U{200A}')
    || c == '\U{2028}' || c == '\U{2029}' || c == '\U{202F}' || c == '\U{205F}'
    || c == '\U{3000}' || c == '\U{FEFF}'
  }

  /** The class `[\s:]` that separates a keyword from its value. */
  predicate IsSepChar(c: char) {
    IsSpace(c) || c == ':'
  }

  predicate IsLetter(c: char) {
    ('a' <= c <= 'z') || ('A' <= c <= 'Z')
  }

  predicate IsDigit(c: char) {
    '0' <= c <= '9'
  }

  predicate IsAlnum(c: char) {
    IsLetter(c) || IsDigit(c)
  }

  /** ASCII lower-casing; every other character is left as it is. */
  function Lower(c: char): char {
    if 'A' <= c <= 'Z' then (c as int + 32) as char else c
  }

  /** ASCII upper-casing; every other character is left as it is. */
  function Upper(c: char): char {
    if 'a' <= c <= 'z' then (c as int - 32) as char else c
  }

  function LowerStr(s: string): (r: string)
    ensures |r| == |s|
    ensures forall i :: 0 <= i < |s| ==> r[i] == Lower(s[i])
  {
    seq(|s|, i requires 0 <= i < |s| => Lower(s[i]))
  }

  /** Two strings that differ at most in the case of ASCII letters. */
  predicate SameIgnoringCase(a: string, b: string) {
    |a| == |b| && forall i :: 0 <= i < |a| ==> Lower(a[i]) == Lower(b[i])
  }

  lemma LowerStrOfSameIgnoringCase(a: string, b: string)
    requires SameIgnoringCase(a, b)
    ensures LowerStr(a) == LowerStr(b)
  {
  }

  lemma LowerStrAppend(a: string, b: string)
    ensures LowerStr(a + b) == LowerStr(a) + LowerStr(b)
  {
  }

  /** `s.includes(sub)`, decided by trying every offset from the left. */
  predicate Contains(s: string, sub: string)
    decreases |s|
  {
    sub <= s || (|s| > 0 && Contains(s[1..], sub))
  }

  /** `sub` occurs in `s` starting at offset `i`. */
  ghost predicate OccursAt(s: string, sub: string, i: int) {
    0 <= i && i + |sub| <= |s| && s[i..i + |sub|] == sub
  }

  lemma OccursInTail(s: string, sub: string, i: int)
    requires |s| > 0 && OccursAt(s[1..], sub, i)
    ensures OccursAt(s, sub, i + 1)
  {
    assert s[1..][i..i + |sub|] == s[i + 1..i + 1 + |sub|];
  }

  lemma OccursFromTail(s: string, sub: string, i: int)
    requires i > 0 && OccursAt(s, sub, i)
    ensures OccursAt(s[1..], sub, i - 1)
  {
    assert s[1..][i - 1..i - 1 + |sub|] == s[i..i + |sub|];
  }

  lemma {:induction false} ContainsIffOccurs(s: string, sub: string)
    ensures Contains(s, sub) <==> exists i :: OccursAt(s, sub, i)
    decreases |s|
  {
    if sub <= s {
      assert OccursAt(s, sub, 0);
    } else if |s| > 0 {
      ContainsIffOccurs(s[1..], sub);
      if exists i :: OccursAt(s[1..], sub, i) {
        var i :| OccursAt(s[1..], sub, i);
        OccursInTail(s, sub, i);
      }
      if exists i :: OccursAt(s, sub, i) {
        var i :| OccursAt(s, sub, i);
        if i != 0 {
          OccursFromTail(s, sub, i);
        }
      }
    }
  }

  /** Every string contains the empty string: `s.includes("")` is true. */
  lemma ContainsEmpty(s: string)
    ensures Contains(s, "")
  {
  }

  /** A string that contains `a + b` contains `a`. */
  lemma {:induction false} ContainsPrefixOfNeedle(s: string, a: string, b: string)
    requires Contains(s, a + b)
    ensures Contains(s, a)
    decreases |s|
  {
    if a + b <= s {
      assert a <= s by {
        assert forall k :: 0 <= k < |a| ==> (a + b)[k] == a[k];
      }
    } else {
      ContainsPrefixOfNeedle(s[1..], a, b);
    }
  }

  /** The case-insensitive literal test of a regular expression with the `i`
      flag: `lit` (written in lower case) occurs in `s` at offset `i`. Without the
      `u` flag JavaScript never folds a non-ASCII character onto an ASCII one, so
      for ASCII literals this is exactly ASCII case folding. */
  predicate LitAt(s: string, i: nat, lit: string) {
    i + |lit| <= |s| && forall j :: 0 <= j < |lit| ==> Lower(s[i + j]) == lit[j]
  }

  /** Some literal of `lits` matches at offset `i`. */
  predicate AnyLitAt(s: string, i: nat, lits: seq<string>) {
    exists t :: 0 <= t < |lits| && LitAt(s, i, lits[t])
  }

  predicate AllSep(s: string, from: nat, to: nat)
    requires to <= |s|
  {
    forall j :: from <= j < to ==> IsSepChar(s[j])
  }

  /** End of the longest run of `[\s:]` starting at `k`: where a greedy
      `[\s:]*` stops. */
  function SepEnd(s: string, k: nat): (m: nat)
    requires k <= |s|
    ensures k <= m <= |s|
    ensures AllSep(s, k, m)
    ensures m == |s| || !IsSepChar(s[m])
    decreases |s| - k
  {
    if k < |s| && IsSepChar(s[k]) then SepEnd(s, k + 1) else k
  }

  /** No separator run from `k` reaches beyond `SepEnd(s, k)`. */
  lemma SepRunBound(s: string, k: nat, p: nat)
    requires k <= p <= |s|
    requires AllSep(s, k, p)
    ensures p <= SepEnd(s, k)
  {
  }

  // ---------------------------------------------------------------------------
  // split

  /** The first occurrence of `c` in `s`. */
  function IndexOf(s: string, c: char): (i: nat)
    requires c in s
    ensures i < |s| && s[i] == c && c !in s[..i]
  {
    if s[0] == c then 0
    else
      var i := 1 + IndexOf(s[1..], c);
      assert s[..i] == [s[0]] + s[1..][..i - 1];
      i
  }

  /** `s.split(sep)`. */
  function SplitOn(s: string, sep: char): (r: seq<string>)
    ensures |r| > 0
    decreases |s|
  {
    if sep in s then
      var i := IndexOf(s, sep);
      [s[..i]] + SplitOn(s[i + 1..], sep)
    else [s]
  }

  lemma IndexOfAfterPrefix(a: string, c: char, b: string)
    requires c !in a
    ensures c in a + [c] + b && IndexOf(a + [c] + b, c) == |a|
  {
    var s := a + [c] + b;
    assert s[|a|] == c;
    var i := IndexOf(s, c);
  }

  /** Splitting at the first separator peels off the text before it. */
  lemma SplitOnAfterPrefix(a: string, c: char, b: string)
    requires c !in a
    ensures SplitOn(a + [c] + b, c) == [a] + SplitOn(b, c)
  {
    var s := a + [c] + b;
    IndexOfAfterPrefix(a, c, b);
    assert s[..|a|] == a;
    assert s[|a| + 1..] == b;
  }

  // ---------------------------------------------------------------------------
  // trim

  /** Neither end of `t` is white space. */
  predicate IsTrimmed(t: string) {
    |t| == 0 || (!IsSpace(t[0]) && !IsSpace(t[|t| - 1]))
  }

  function SkipSpace(s: string, i: nat): (r: nat)
    requires i <= |s|
    ensures i <= r <= |s|
    ensures forall j :: i <= j < r ==> IsSpace(s[j])
    ensures r == |s| || !IsSpace(s[r])
    decreases |s| - i
  {
    if i < |s| && IsSpace(s[i]) then SkipSpace(s, i + 1) else i
  }

  function SkipSpaceBack(s: string, lo: nat, hi: nat): (r: nat)
    requires lo <= hi <= |s|
    ensures lo <= r <= hi
    ensures forall j :: r <= j < hi ==> IsSpace(s[j])
    ensures r == lo || !IsSpace(s[r - 1])
    decreases hi
  {
    if lo < hi && IsSpace(s[hi - 1]) then SkipSpaceBack(s, lo, hi - 1) else hi
  }

  /** `t` is `s` with a white-space prefix and a white-space suffix removed. */
  ghost predicate IsInnerPart(s: string, t: string) {
    exists lo :: IsInnerPartAt(s, t, lo)
  }

  ghost predicate IsInnerPartAt(s: string, t: string, lo: int) {
    && 0 <= lo && lo + |t| <= |s| && s[lo..lo + |t|] == t
    && (forall j :: 0 <= j < lo ==> IsSpace(s[j]))
    && (forall j :: lo + |t| <= j < |s| ==> IsSpace(s[j]))
  }

  /** `String.prototype.trim`. */
  function Trim(s: string): (r: string)
    ensures IsTrimmed(r)
    ensures IsInnerPart(s, r)
    ensures forall c :: c in r ==> c in s
  {
    var lo := SkipSpace(s, 0);
    var hi := SkipSpaceBack(s, lo, |s|);
    assert IsInnerPartAt(s, s[lo..hi], lo);
    s[lo..hi]
  }

  /** Trimming removes only white space: what is left of a string with no white
      space at either end is the whole string. */
  lemma TrimOfTrimmed(s: string)
    requires IsTrimmed(s)
    ensures Trim(s) == s
  {
    var lo := SkipSpace(s, 0);
    if |s| > 0 {
      assert lo == 0;
      assert SkipSpaceBack(s, 0, |s|) == |s|;
    }
  }

  /** `trim` is idempotent. */
  lemma TrimIdempotent(s: string)
    ensures Trim(Trim(s)) == Trim(s)
  {
    TrimOfTrimmed(Trim(s));
  }

  /** A string of white space only trims to the empty string. */
  lemma TrimOfBlank(s: string)
    requires forall c :: c in s ==> IsSpace(c)
    ensures Trim(s) == ""
  {
  }
}
