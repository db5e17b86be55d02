/** src/lib/ocr.ts: the engine cache of `initializeOCR`, the text flattening and
    error wrapping of `extractTextFromImage`, and the seven-field
    `extractCertificateDetails`. The inference engine itself is a black box: its
    construction and its output are parameters. */
module Ocr {
  import opened Base
  import opened Text
  import LazyField
  import TokenField
  import CertField

  // ---------------------------------------------------------------------------
  // extractCertificateDetails

  datatype Details = Details(
    studentName: string,
    rollNumber: string,
    dateOfBirth: string,
    certificateNumber: string,
    course: string,
    year: string,
    institution: string)

  /** `(?:name|student|awarded to)[\s:]+([a-zA-Z\s]+?)(?:\n|certificate|roll|reg)` */
  const NamePattern := LazyField.Pattern(["name", "student", "awarded to"], 1,
                                         ["\n", "certificate", "roll", "reg"])

  /** `(?:roll|registration|reg|student id)[\s:]*([a-zA-Z0-9]+)` */
  const RollPattern := TokenField.Pattern(["roll", "registration", "reg", "student id"],
                                          TokenField.AlnumRun)

  /** `(?:date of birth|dob|born)[\s:]*(\d{1,2}[-/.]\d{1,2}[-/.]\d{2,4})` */
  const BirthPattern := TokenField.Pattern(["date of birth", "dob", "born"], TokenField.DateToken)

  /** `(?:course|program|degree|bachelor|master|diploma)[\s:]*([a-zA-Z\s]+?)(?:\n|year|duration)` */
  const CoursePattern := LazyField.Pattern(["course", "program", "degree", "bachelor", "master", "diploma"], 0,
                                           ["\n", "year", "duration"])

  /** `(?:year|graduated|completed|issued)[\s:]*(\d{4})` */
  const YearPattern := TokenField.Pattern(["year", "graduated", "completed", "issued"],
                                          TokenField.FourDigits)

  /** `(?:university|college|institute|school)[\s:]*([a-zA-Z\s]+?)(?:\n|certificate|awarded)` */
  const InstitutionPattern := LazyField.Pattern(["university", "college", "institute", "school"], 0,
                                                ["\n", "certificate", "awarded"])

  /** Every field runs its own pattern over the same text; a field without a
      match keeps the default "". */
  function ExtractCertificateDetails(text: string): (r: Details)
    // each field: "" without a match, else group 1 of the reported match
    ensures LazyField.IsFieldValue(text, NamePattern, r.studentName)
    ensures TokenField.IsFieldValue(text, RollPattern, r.rollNumber)
    ensures TokenField.IsFieldValue(text, BirthPattern, r.dateOfBirth)
    ensures CertField.IsFieldValue(text, r.certificateNumber)
    ensures LazyField.IsFieldValue(text, CoursePattern, r.course)
    ensures TokenField.IsFieldValue(text, YearPattern, r.year)
    ensures LazyField.IsFieldValue(text, InstitutionPattern, r.institution)
    // the shape each capture class guarantees
    ensures FieldsTrimmed(r)
    ensures forall c :: c in r.studentName ==> LazyField.IsCaptureChar(c)
    ensures forall c :: c in r.course ==> LazyField.IsCaptureChar(c)
    ensures forall c :: c in r.institution ==> LazyField.IsCaptureChar(c)
    ensures r.rollNumber == "" || TokenField.TokenText(TokenField.AlnumRun, r.rollNumber)
    ensures r.certificateNumber == "" || TokenField.TokenText(TokenField.CertRun, r.certificateNumber)
    ensures r.dateOfBirth == "" || TokenField.IsDateText(r.dateOfBirth)
    ensures r.year == "" || (|r.year| == 4 && forall j :: 0 <= j < 4 ==> IsDigit(r.year[j]))
  {
    var name := LazyField.Extract(text, NamePattern);
    var roll := TokenField.Extract(text, RollPattern);
    var birth := TokenField.Extract(text, BirthPattern);
    var cert := CertField.Extract(text);
    var course := LazyField.Extract(text, CoursePattern);
    var year := TokenField.Extract(text, YearPattern);
    var institution := LazyField.Extract(text, InstitutionPattern);
    Details(name, roll, birth, cert, course, year, institution)
  }

  predicate FieldsTrimmed(d: Details) {
    && IsTrimmed(d.studentName) && IsTrimmed(d.rollNumber) && IsTrimmed(d.dateOfBirth)
    && IsTrimmed(d.certificateNumber) && IsTrimmed(d.course) && IsTrimmed(d.year)
    && IsTrimmed(d.institution)
  }

  // ---------------------------------------------------------------------------
  // flattening the engine's output

  /** One record of the engine's output; `generated_text` may be missing. */
  datatype OcrRecord = OcrRecord(generatedText: Option<string>)

  /** The engine answers with one record or with an array of records. */
  datatype OcrOutput = Single(record: OcrRecord) | Batch(records: seq<OcrRecord>)

  /** A missing text reads as "", both for `generated_text || ''` and for
      `Array.prototype.join`, which writes `undefined` as "". */
  function TextOf(rec: OcrRecord): string {
    match rec.generatedText
    case None => ""
    case Some(t) => t
  }

  function TotalLength(parts: seq<string>): nat {
    if |parts| == 0 then 0 else |parts[0]| + TotalLength(parts[1..])
  }

  /** `parts.join(' ')`. */
  function JoinSpaces(parts: seq<string>): (r: string)
    ensures |parts| == 0 ==> r == ""
    ensures |parts| > 0 ==> |r| == TotalLength(parts) + |parts| - 1
    ensures |parts| > 0 ==> parts[0] <= r
  {
    if |parts| == 0 then ""
    else if |parts| == 1 then parts[0]
    else parts[0] + " " + JoinSpaces(parts[1..])
  }

  /** The texts of a batch, in order. */
  function TextsOf(recs: seq<OcrRecord>): (r: seq<string>)
    ensures |r| == |recs| && forall k :: 0 <= k < |recs| ==> r[k] == TextOf(recs[k])
  {
    seq(|recs|, k requires 0 <= k < |recs| => TextOf(recs[k]))
  }

  /** The text the engine's output flattens to: a single record's text, or the
      texts of a batch separated by one space each. */
  function Flatten(out: OcrOutput): (r: string)
    ensures out.Single? ==> r == TextOf(out.record)
    ensures out.Batch? && |out.records| == 0 ==> r == ""
    ensures out.Batch? && |out.records| > 0 ==>
      TextOf(out.records[0]) <= r && |r| == TotalLength(TextsOf(out.records)) + |out.records| - 1
  {
    match out
    case Single(rec) => TextOf(rec)
    case Batch(recs) => JoinSpaces(TextsOf(recs))
  }

  /** Flattening a batch loses nothing when no record's text holds a space:
      splitting the flat text on spaces gives every record's text, in order. */
  lemma FlattenSplitsBack(recs: seq<OcrRecord>)
    requires |recs| > 0
    requires forall k :: 0 <= k < |recs| ==> ' ' !in TextOf(recs[k])
    ensures SplitOn(Flatten(Batch(recs)), ' ') == TextsOf(recs)
  {
    SplitJoinSpaces(TextsOf(recs));
  }

  /** Joining with single spaces loses nothing when no part holds a space:
      splitting the flat text on spaces gives the parts back, in order. */
  lemma {:induction false} SplitJoinSpaces(parts: seq<string>)
    requires |parts| > 0
    requires forall k :: 0 <= k < |parts| ==> ' ' !in parts[k]
    ensures SplitOn(JoinSpaces(parts), ' ') == parts
  {
    if |parts| == 1 {
    } else {
      var rest := JoinSpaces(parts[1..]);
      assert JoinSpaces(parts) == parts[0] + [' '] + rest;
      SplitOnAfterPrefix(parts[0], ' ', rest);
      SplitJoinSpaces(parts[1..]);
      assert parts == [parts[0]] + parts[1..];
    }
  }

  /** The records of a batch appear in the flat text in order, each followed by
      one space except the last. */
  lemma {:induction false} FlattenBatchAppend(a: seq<OcrRecord>, b: seq<OcrRecord>)
    requires |a| > 0 && |b| > 0
    ensures Flatten(Batch(a + b)) == Flatten(Batch(a)) + " " + Flatten(Batch(b))
    decreases |a|
  {
    var ta := TextsOf(a);
    var tb := TextsOf(b);
    var tab := TextsOf(a + b);
    assert tab == ta + tb;
    JoinAppend(ta, tb);
  }

  lemma {:induction false} JoinAppend(x: seq<string>, y: seq<string>)
    requires |x| > 0 && |y| > 0
    ensures JoinSpaces(x + y) == JoinSpaces(x) + " " + JoinSpaces(y)
    decreases |x|
  {
    if |x| == 1 {
      assert (x + y)[1..] == y;
    } else {
      assert (x + y)[1..] == x[1..] + y;
      JoinAppend(x[1..], y);
    }
  }

  /** An array of one record flattens like that record on its own. */
  lemma FlattenSingletonBatch(rec: OcrRecord)
    ensures Flatten(Batch([rec])) == Flatten(Single(rec))
  {
  }

  // ---------------------------------------------------------------------------
  // initializeOCR

  datatype Backend = WebGpu | DefaultDevice

  /** What a `throw` carries: an `Error` with a message, or any other value. */
  datatype Thrown = ErrorObject(message: string) | OtherValue

  /** An engine handle, identified by the construction that produced it. */
  datatype Engine = Engine(id: nat, backend: Backend)

  /** The outcome of one `pipeline(...)` construction. */
  datatype Construction = Built(id: nat) | Threw(thrown: Thrown)

  /** The module-level cache after a call, what the call returned or threw, and
      the constructions it attempted, in order. */
  datatype InitStep = InitStep(cache: Option<Engine>, result: Result<Engine, Thrown>, attempts: seq<Backend>)

  /** `initializeOCR`: reuse the cached engine; otherwise construct on WebGPU,
      and only if that throws, construct on the default device. */
  function InitializeOcr(cache: Option<Engine>, onGpu: Construction, onDefault: Construction): (r: InitStep)
    ensures cache.Some? ==> r.cache == cache && r.result == Ok(cache.value) && r.attempts == []
    ensures cache.None? ==> |r.attempts| > 0 && r.attempts[0] == WebGpu
    ensures DefaultDevice in r.attempts <==> cache.None? && onGpu.Threw?
    ensures forall j, k :: 0 <= j < k < |r.attempts| ==> r.attempts[j] != r.attempts[k]
    ensures r.result.Ok? <==> r.cache.Some?
    ensures r.result.Ok? ==> r.cache == Some(r.result.value)
    ensures r.result.Err? <==> cache.None? && onGpu.Threw? && onDefault.Threw?
    ensures r.result.Err? ==> r.result.error == onDefault.thrown
    ensures cache.None? && r.result.Ok? ==>
      r.result.value == (if onGpu.Built? then Engine(onGpu.id, WebGpu) else Engine(onDefault.id, DefaultDevice))
  {
    if cache.Some? then InitStep(cache, Ok(cache.value), [])
    else match onGpu
      case Built(id) =>
        var e := Engine(id, WebGpu);
        InitStep(Some(e), Ok(e), [WebGpu])
      case Threw(_) =>
        match onDefault
        case Built(id) =>
          var e := Engine(id, DefaultDevice);
          InitStep(Some(e), Ok(e), [WebGpu, DefaultDevice])
        case Threw(t) => InitStep(None, Err(t), [WebGpu, DefaultDevice])
  }

  /** A sequence of calls to `initializeOCR`, each meeting the construction
      outcomes given for it; the results in order and the final cache. */
  function InitializeAll(cache: Option<Engine>, calls: seq<(Construction, Construction)>): (r: (seq<Result<Engine, Thrown>>, Option<Engine>))
    ensures |r.0| == |calls|
    ensures cache.Some? ==> r.1 == cache
    decreases |calls|
  {
    if |calls| == 0 then ([], cache)
    else
      var step := InitializeOcr(cache, calls[0].0, calls[0].1);
      var rest := InitializeAll(step.cache, calls[1..]);
      ([step.result] + rest.0, rest.1)
  }

  /** After the first success every result is that success. */
  predicate AllLaterEqual(rs: seq<Result<Engine, Thrown>>) {
    forall j, k :: 0 <= j < k < |rs| && rs[j].Ok? ==> rs[k] == rs[j]
  }

  /** Once a call has returned an engine, every later call returns that same
      engine, whatever its constructions would have done. */
  lemma {:induction false} EngineIsShared(cache: Option<Engine>, calls: seq<(Construction, Construction)>)
    ensures AllLaterEqual(InitializeAll(cache, calls).0)
    ensures cache.Some? ==> forall k :: 0 <= k < |calls| ==> InitializeAll(cache, calls).0[k] == Ok(cache.value)
    decreases |calls|
  {
    if |calls| > 0 {
      var step := InitializeOcr(cache, calls[0].0, calls[0].1);
      var rest := InitializeAll(step.cache, calls[1..]).0;
      var rs := InitializeAll(cache, calls).0;
      assert rs == [step.result] + rest;
      EngineIsShared(step.cache, calls[1..]);
      assert AllLaterEqual(rest);
      forall j, k | 0 <= j < k < |rs| && rs[j].Ok?
        ensures rs[k] == rs[j]
      {
        assert rs[k] == rest[k - 1];
        if j == 0 {
          assert step.cache == Some(step.result.value);
          assert rest[k - 1] == Ok(step.cache.value);
          assert rs[0] == step.result;
        } else {
          assert rs[j] == rest[j - 1];
        }
      }
    }
  }

  // ---------------------------------------------------------------------------
  // extractTextFromImage

  /** The temporary object URL: never made (the engine failed first), revoked
      after a successful inference, or left behind when a later step throws. */
  datatype ObjectUrl = NotCreated | Revoked | Leaked

  datatype TextOutcome = TextOutcome(cache: Option<Engine>, text: Result<string, string>, url: ObjectUrl)

  const FailurePrefix := "OCR extraction failed: "

  /** The message `extractTextFromImage` rethrows. */
  function FailureMessage(t: Thrown): string {
    FailurePrefix + match t
      case ErrorObject(m) => m
      case OtherValue => "Unknown error"
  }

  /** `extractTextFromImage`: obtain the engine, load the image, run the engine,
      flatten its output; any throw becomes one wrapped error. A failed image
      load rejects with an event, not an `Error`. */
  function ExtractTextFromImage(cache: Option<Engine>, onGpu: Construction, onDefault: Construction,
                                imageLoads: bool, inference: Result<OcrOutput, Thrown>): (r: TextOutcome)
    ensures r.cache == InitializeOcr(cache, onGpu, onDefault).cache
    ensures r.text.Ok? <==> r.url == Revoked
    ensures r.text.Ok? <==> InitializeOcr(cache, onGpu, onDefault).result.Ok? && imageLoads && inference.Ok?
    ensures r.text.Ok? ==> inference.Ok? && r.text.value == Flatten(inference.value)
    ensures r.text.Err? ==> FailurePrefix <= r.text.error
    ensures InitializeOcr(cache, onGpu, onDefault).result.Err? ==>
      r.text == Err(FailureMessage(InitializeOcr(cache, onGpu, onDefault).result.error))
    ensures InitializeOcr(cache, onGpu, onDefault).result.Ok? && !imageLoads ==>
      r.text == Err(FailurePrefix + "Unknown error")
    ensures InitializeOcr(cache, onGpu, onDefault).result.Ok? && imageLoads && inference.Err? ==>
      r.text == Err(FailureMessage(inference.error))
    ensures InitializeOcr(cache, onGpu, onDefault).result.Err? ==> r.url == NotCreated
    ensures r.url == Leaked <==> InitializeOcr(cache, onGpu, onDefault).result.Ok? && (!imageLoads || inference.Err?)
  {
    var init := InitializeOcr(cache, onGpu, onDefault);
    match init.result
    case Err(t) => TextOutcome(init.cache, Err(FailureMessage(t)), NotCreated)
    case Ok(_) =>
      if !imageLoads then TextOutcome(init.cache, Err(FailureMessage(OtherValue)), Leaked)
      else match inference
        case Err(t) => TextOutcome(init.cache, Err(FailureMessage(t)), Leaked)
        case Ok(out) => TextOutcome(init.cache, Ok(Flatten(out)), Revoked)
  }
}
