/** The search filter and the status counts of src/components/AdminDashboard.tsx,
    over any sequence of verification records. */
module Admin {
  import opened Text
  import opened Verdict

  datatype VerificationRecord = VerificationRecord(
    id: string,
    timestamp: string,
    fileName: string,
    status: Status,
    studentName: string,
    certificateNumber: string,
    hash: string)

  /** The search term, lower-cased, occurs in the lower-cased student name,
      certificate number or file name. */
  predicate MatchesSearch(rec: VerificationRecord, term: string) {
    var t := LowerStr(term);
    || Contains(LowerStr(rec.studentName), t)
    || Contains(LowerStr(rec.certificateNumber), t)
    || Contains(LowerStr(rec.fileName), t)
  }

  /** The search test by occurrence: the lower-cased term appears at some offset
      of one of the three lower-cased fields. */
  lemma MatchesSearchIffOccurs(rec: VerificationRecord, term: string)
    ensures MatchesSearch(rec, term) <==>
      || (exists i :: OccursAt(LowerStr(rec.studentName), LowerStr(term), i))
      || (exists i :: OccursAt(LowerStr(rec.certificateNumber), LowerStr(term), i))
      || (exists i :: OccursAt(LowerStr(rec.fileName), LowerStr(term), i))
  {
    var t := LowerStr(term);
    ContainsIffOccurs(LowerStr(rec.studentName), t);
    ContainsIffOccurs(LowerStr(rec.certificateNumber), t);
    ContainsIffOccurs(LowerStr(rec.fileName), t);
  }

  /** `xs` is `ys` with some elements left out, the rest in their order. */
  ghost predicate IsSubsequence<T>(xs: seq<T>, ys: seq<T>)
    decreases |ys|
  {
    || |xs| == 0
    || (|ys| > 0 && xs[0] == ys[0] && IsSubsequence(xs[1..], ys[1..]))
    || (|ys| > 0 && IsSubsequence(xs, ys[1..]))
  }

  /** `filteredRecords`. */
  function FilterRecords(records: seq<VerificationRecord>, term: string): (r: seq<VerificationRecord>)
    ensures IsSubsequence(r, records)
    ensures forall x :: x in r <==> x in records && MatchesSearch(x, term)
    ensures forall x :: multiset(r)[x] == if MatchesSearch(x, term) then multiset(records)[x] else 0
  {
    if |records| == 0 then []
    else
      var rest := FilterRecords(records[1..], term);
      assert records == [records[0]] + records[1..];
      if MatchesSearch(records[0], term) then
        assert ([records[0]] + rest)[1..] == rest;
        [records[0]] + rest
      else rest
  }

  /** Every record contains the empty string: an empty search keeps all. */
  lemma {:induction false} EmptySearchKeepsAll(records: seq<VerificationRecord>)
    ensures FilterRecords(records, "") == records
  {
    if |records| > 0 {
      ContainsEmpty(LowerStr(records[0].studentName));
      assert LowerStr("") == "";
      EmptySearchKeepsAll(records[1..]);
    }
  }

  /** A record that matches a longer term matches every prefix of it. */
  lemma ExtendedTermMatchesPrefix(rec: VerificationRecord, t: string, u: string)
    requires MatchesSearch(rec, t + u)
    ensures MatchesSearch(rec, t)
  {
    LowerStrAppend(t, u);
    var lt := LowerStr(t);
    var lu := LowerStr(u);
    if Contains(LowerStr(rec.studentName), lt + lu) {
      ContainsPrefixOfNeedle(LowerStr(rec.studentName), lt, lu);
    } else if Contains(LowerStr(rec.certificateNumber), lt + lu) {
      ContainsPrefixOfNeedle(LowerStr(rec.certificateNumber), lt, lu);
    } else {
      ContainsPrefixOfNeedle(LowerStr(rec.fileName), lt, lu);
    }
  }

  /** Typing more can only drop records: the results for `t + u` are the
      results for `t`, filtered again. */
  lemma {:induction false} ExtendingTermNarrows(records: seq<VerificationRecord>, t: string, u: string)
    ensures FilterRecords(records, t + u) == FilterRecords(FilterRecords(records, t), t + u)
  {
    if |records| > 0 {
      ExtendingTermNarrows(records[1..], t, u);
      if MatchesSearch(records[0], t + u) {
        ExtendedTermMatchesPrefix(records[0], t, u);
      }
      var rest := FilterRecords(records[1..], t);
      if MatchesSearch(records[0], t) {
        assert ([records[0]] + rest)[1..] == rest;
      }
    }
  }

  datatype Stats = Stats(total: nat, valid: nat, suspicious: nat, invalid: nat)

  function CountStatus(records: seq<VerificationRecord>, st: Status): nat {
    if |records| == 0 then 0
    else (if records[0].status == st then 1 else 0) + CountStatus(records[1..], st)
  }

  /** Each record has exactly one of the three statuses. */
  lemma {:induction false} CountsPartition(records: seq<VerificationRecord>)
    ensures CountStatus(records, Valid) + CountStatus(records, Suspicious) + CountStatus(records, Invalid) == |records|
  {
    if |records| > 0 {
      CountsPartition(records[1..]);
    }
  }

  /** `stats`: computed over all records, whatever the search term. */
  function ComputeStats(records: seq<VerificationRecord>): (s: Stats)
    ensures s.total == |records|
    ensures s.valid + s.suspicious + s.invalid == s.total
    ensures s.valid == multiset(StatusesOf(records))[Valid]
    ensures s.suspicious == multiset(StatusesOf(records))[Suspicious]
    ensures s.invalid == multiset(StatusesOf(records))[Invalid]
  {
    CountsPartition(records);
    CountIsMultiplicity(records, Valid);
    CountIsMultiplicity(records, Suspicious);
    CountIsMultiplicity(records, Invalid);
    Stats(|records|, CountStatus(records, Valid), CountStatus(records, Suspicious), CountStatus(records, Invalid))
  }

  /** A status count is the number of records with that status. */
  lemma {:induction false} CountIsMultiplicity(records: seq<VerificationRecord>, st: Status)
    ensures CountStatus(records, st) == multiset(StatusesOf(records))[st]
  {
    if |records| > 0 {
      CountIsMultiplicity(records[1..], st);
      assert StatusesOf(records) == [records[0].status] + StatusesOf(records[1..]);
    }
  }

  function StatusesOf(records: seq<VerificationRecord>): (r: seq<Status>)
    ensures |r| == |records|
  {
    seq(|records|, k requires 0 <= k < |records| => records[k].status)
  }

  /** Counting the records of two lists together adds their counts. */
  lemma {:induction false} StatsAppend(a: seq<VerificationRecord>, b: seq<VerificationRecord>, st: Status)
    ensures CountStatus(a + b, st) == CountStatus(a, st) + CountStatus(b, st)
  {
    if |a| > 0 {
      assert (a + b)[1..] == a[1..] + b;
      StatsAppend(a[1..], b, st);
    } else {
      assert a + b == b;
    }
  }
}
