/** The mock verification that `handleFileSelect` in src/pages/Index.tsx runs
    once its delay has passed: a status from keywords in the lower-cased file
    name, fixed details per status, a constant hash, and the label of the
    closing notification. The delay, the notifications and the timestamp are
    not modelled. */
module Upload {
  import opened Text
  import opened Verdict

  /** First rule wins: "fake" or "invalid" makes the file invalid; otherwise
      "suspicious" or "test" makes it suspicious; otherwise it is valid. */
  function ClassifyFileName(fileName: string): (st: Status)
    ensures st == Invalid <==> HasInvalidMarker(fileName)
    ensures st == Suspicious <==> !HasInvalidMarker(fileName) && HasSuspiciousMarker(fileName)
    ensures st == Valid <==> !HasInvalidMarker(fileName) && !HasSuspiciousMarker(fileName)
  {
    MarkersAsContains(fileName);
    var name := LowerStr(fileName);
    if Contains(name, "fake") || Contains(name, "invalid") then Invalid
    else if Contains(name, "suspicious") || Contains(name, "test") then Suspicious
    else Valid
  }

  /** The lower-cased name has "fake" or "invalid" at some offset. */
  ghost predicate HasInvalidMarker(fileName: string) {
    exists i :: OccursAt(LowerStr(fileName), "fake", i) || OccursAt(LowerStr(fileName), "invalid", i)
  }

  /** The lower-cased name has "suspicious" or "test" at some offset. */
  ghost predicate HasSuspiciousMarker(fileName: string) {
    exists i :: OccursAt(LowerStr(fileName), "suspicious", i) || OccursAt(LowerStr(fileName), "test", i)
  }

  lemma MarkersAsContains(fileName: string)
    ensures HasInvalidMarker(fileName) <==> Contains(LowerStr(fileName), "fake") || Contains(LowerStr(fileName), "invalid")
    ensures HasSuspiciousMarker(fileName) <==> Contains(LowerStr(fileName), "suspicious") || Contains(LowerStr(fileName), "test")
  {
    var name := LowerStr(fileName);
    ContainsIffOccurs(name, "fake");
    ContainsIffOccurs(name, "invalid");
    ContainsIffOccurs(name, "suspicious");
    ContainsIffOccurs(name, "test");
  }

  /** Only the lower-cased name counts: names that differ in letter case alone
      get the same status. */
  lemma ClassifyIgnoresCase(a: string, b: string)
    requires SameIgnoringCase(a, b)
    ensures ClassifyFileName(a) == ClassifyFileName(b)
  {
    LowerStrOfSameIgnoringCase(a, b);
  }

  /** The invalid rule is checked first: a name with both kinds of marker is
      invalid, as is "invalid_john.png" although it contains "valid". */
  lemma InvalidRuleWins()
    ensures ClassifyFileName("fake_test.png") == Invalid
    ensures ClassifyFileName("Invalid_John.png") == Invalid
  {
    var a := LowerStr("fake_test.png");
    assert a[..4] == "fake";
    var b := LowerStr("Invalid_John.png");
    assert b[..7] == "invalid";
  }

  /** The six fields the result screen shows. */
  datatype MockDetails = MockDetails(
    studentName: string,
    rollNumber: string,
    dateOfBirth: string,
    certificateNumber: string,
    course: string,
    year: string)

  /** An invalid file gets the "Unknown User" record; valid and suspicious files
      get the same John Doe record. */
  function DetailsFor(st: Status): (d: MockDetails)
    ensures st == Invalid ==> d.studentName == "Unknown User" && d.certificateNumber == "FAKE-001"
    ensures st == Invalid ==> d.rollNumber == "N/A" && d.dateOfBirth == "N/A" && d.course == "N/A" && d.year == "N/A"
    ensures st != Invalid ==> d.studentName == "John Doe" && d.certificateNumber == "CERT-2023-001"
    ensures st != Invalid ==> d.rollNumber == "CS2023001" && d.dateOfBirth == "1999-05-15"
    ensures st != Invalid ==> d.course == "Computer Science" && d.year == "2023"
  {
    var invalid := st == Invalid;
    MockDetails(
      studentName := if invalid then "Unknown User" else "John Doe",
      rollNumber := if invalid then "N/A" else "CS2023001",
      dateOfBirth := if invalid then "N/A" else "1999-05-15",
      certificateNumber := if invalid then "FAKE-001" else "CERT-2023-001",
      course := if invalid then "N/A" else "Computer Science",
      year := if invalid then "N/A" else "2023")
  }

  /** A suspicious file is shown exactly the record of a valid one. */
  lemma SuspiciousLooksValid()
    ensures DetailsFor(Suspicious) == DetailsFor(Valid)
    ensures DetailsFor(Invalid) != DetailsFor(Valid)
  {
  }

  /** The same "hash" for every file. */
  const MockHash := "a1b2c3d4e5f6g7h8i9j0k1l2m3n4o5p6q7r8s9t0u1v2w3x4y5z6"

  datatype MockResult = MockResult(status: Status, details: MockDetails, hash: string)

  /** The result object of `handleFileSelect`, without its timestamp. */
  function HandleFile(fileName: string): (r: MockResult)
    ensures r.status == ClassifyFileName(fileName)
    ensures r.details == DetailsFor(r.status)
    ensures r.hash == MockHash
  {
    var st := ClassifyFileName(fileName);
    MockResult(st, DetailsFor(st), MockHash)
  }

  /** `s.charAt(0).toUpperCase() + s.slice(1)` for ASCII text. Upper-casing is
      ASCII only; it is applied to the three status names alone, which are
      ASCII, so no behaviour differs. */
  function Capitalize(s: string): (r: string)
    ensures |r| == |s|
    ensures |s| > 0 ==> r[0] == Upper(s[0]) && r[1..] == s[1..]
  {
    if |s| == 0 then "" else [Upper(s[0])] + s[1..]
  }

  /** The status label of the closing notification. */
  function ToastLabel(st: Status): (r: string)
    ensures LowerStr(r) == StatusName(st)
    ensures 'A' <= r[0] <= 'Z'
  {
    Capitalize(StatusName(st))
  }

  /** Each status has its own label. */
  lemma ToastLabelInjective(a: Status, b: Status)
    requires ToastLabel(a) == ToastLabel(b)
    ensures a == b
  {
    assert LowerStr(ToastLabel(a)) == StatusName(a);
  }

  lemma ToastLabels()
    ensures ToastLabel(Valid) == "Valid"
    ensures ToastLabel(Suspicious) == "Suspicious"
    ensures ToastLabel(Invalid) == "Invalid"
  {
  }
}
