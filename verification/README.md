# Certificate scanning core, modelled in Dafny

This project models the core logic of a browser application that checks
educational certificates. It covers four pieces:

- **Field extraction** (`src/lib/ocr.ts`). `extractCertificateDetails` runs
  seven case-insensitive regular expressions over the recognised text. Each
  field is the trimmed first capture group of the match, or `""`.
- **Recognition plumbing** (`src/lib/ocr.ts`). This is the cached engine of
  `initializeOCR`, with its WebGPU-then-default-device fallback. It also
  covers how `extractTextFromImage` flattens the engine's output, wraps its
  errors and handles the temporary object URL.
- **Mock verification** (`src/pages/Index.tsx`). A status is chosen from
  keywords in the lower-cased file name. It comes with fixed details per
  status, a constant hash and the label of the closing notification.
- **Admin view and session** (`src/components/AdminDashboard.tsx`,
  `src/context/AuthContext.tsx`). These are the search filter and the status
  counts, plus the mock login, signup, logout and session restore over the
  browser's key-value store.

Regular expressions are modelled declaratively. For each family of patterns:

- `IsPath` says what one successful route through the expression looks like:
  keyword alternative, separator run, capture and terminator.
- `Before` is the order in which a backtracking engine tries those routes:
  leftmost start, earlier alternative, greedy runs longest first, lazy runs
  shortest first.
- The scanner functions (`TryAlt`, `SearchFrom`, `FirstMatch`) are proved to
  return the route no other valid route precedes. When they find none, no
  route exists.
- `IsFieldValue` then states what each detail field holds. `Ocr.ExtractCertificateDetails`
  establishes it for all seven fields.

Whitespace follows JavaScript exactly:

- `\s` and `trim()` use the ECMAScript WhiteSpace and LineTerminator
  characters.
- The `i` flag on ASCII literals is ASCII case folding. Without the `u` flag,
  JavaScript never folds a non-ASCII character onto an ASCII one.

Modules:

| module | file | contents |
|---|---|---|
| `Base` | base.dfy | `Option`, `Result` |
| `Text` | text.dfy | character classes, ASCII lower-casing, `includes`, `split`, `trim` |
| `LazyField` | lazy_field.dfy | name, course and institution: keyword, separators, lazy word capture, terminator |
| `TokenField` | token_field.dfy | roll number, date of birth and year: keyword, separators, greedy token |
| `CertField` | cert_field.dfy | certificate number: lead word, separators, marker, separators, token |
| `Ocr` | ocr.dfy | the seven patterns, `extractCertificateDetails`, engine cache, text extraction |
| `Verdict` | status.dfy | the verification status and its spelling |
| `Upload` | upload.dfy | file-name classifier, mock details and hash, notification label |
| `Admin` | admin.dfy | search filter and statistics |
| `Auth` | auth.dfy | session transitions |
| `OcrScenarios` | scenarios.dfy | worked examples of the name field |

## Model

| member | source | states |
|---|---|---|
| `Text.Trim` | src/lib/ocr.ts:98 | The result has no leading or trailing JavaScript white space. It is a contiguous part of the input with only white space cut from either end. |
| `Text.TrimOfTrimmed` | src/lib/ocr.ts:98 | A string with no white space at either end is its own trim. |
| `Text.TrimIdempotent` | src/lib/ocr.ts:98 | Trimming twice is trimming once. |
| `Text.TrimOfBlank` | src/lib/ocr.ts:98 | A capture of white space only trims to the empty string. |
| `Text.ContainsIffOccurs` | src/pages/Index.tsx:26 | `includes` as the left-to-right scan holds exactly when the needle occurs at some offset. |
| `Text.ContainsPrefixOfNeedle` | src/components/AdminDashboard.tsx:88 | A string that includes `a + b` includes `a`. |
| `Text.SplitOnAfterPrefix` | src/context/AuthContext.tsx:59 | `split` at a separator absent from `a` yields `a` followed by the split of the rest. |
| `LazyField.TrySep` | src/lib/ocr.ts:86 | Trying separator ends from the longest down returns the first end that admits a capture, with that capture's shortest end. None means no shorter separator admits one either. |
| `LazyField.TailAt` | src/lib/ocr.ts:86 | After a keyword, the greedy `[\s:]` run and the lazy `[a-zA-Z\s]+?` give the first tail in engine order, or none exists. |
| `LazyField.TryAlt` | src/lib/ocr.ts:86 | At one start offset, the first keyword alternative with a tail wins. None means no route starts there. |
| `LazyField.FirstMatch` | src/lib/ocr.ts:96 | `text.match` for a lazy-capture pattern: the reported route precedes no other, and none is reported exactly when no route exists. |
| `LazyField.Extract` | src/lib/ocr.ts:95-100 | The field is `""` without a match, otherwise the trimmed capture of the first route. It is trimmed and made of letters and white space. |
| `TokenField.TokenIsSolid` | src/lib/ocr.ts:87-91 | A token never starts with a separator character nor ends in white space. So the greedy `[\s:]*` before it is forced to be maximal. |
| `TokenField.CaptureStartsAfterSeparators` | src/lib/ocr.ts:87-91 | Every route's capture starts at the end of the maximal separator run after the keyword. |
| `TokenField.DateEnd` | src/lib/ocr.ts:88 | `\d{1,2}[-/.]\d{1,2}[-/.]\d{2,4}` at an offset: the longest end forming a date, or none exists. |
| `TokenField.TokenEnd` | src/lib/ocr.ts:87-91 | The greedy capture for each token kind returns the longest end at which the slice is a token, or none exists. |
| `TokenField.FirstMatch` | src/lib/ocr.ts:96 | `text.match` for a greedy-token pattern: the reported route precedes no other, and none is reported exactly when no route exists. |
| `TokenField.Extract` | src/lib/ocr.ts:95-100 | The field is `""` without a match, otherwise the token of the first route. It is a whole token and already trimmed. |
| `CertField.FirstMatch` | src/lib/ocr.ts:89 | `text.match` for the certificate-number pattern, with its two separator runs and the marker alternatives, under the same first-route guarantee. |
| `CertField.Extract` | src/lib/ocr.ts:89 | The certificate number is `""` without a match, otherwise the `[a-zA-Z0-9-]+` token of the first route. |
| `Ocr.ExtractCertificateDetails` | src/lib/ocr.ts:73-102 | Each of the seven fields holds the value its pattern determines. All fields are trimmed. The name, course and institution are ASCII letters and white space. The roll and certificate numbers are tokens, the birth date is a date, and the year is four digits or `""`. |
| `Ocr.Flatten` | src/lib/ocr.ts:60-62 | A single record gives its text, with a missing text read as `""`. An empty batch gives `""`. A non-empty batch gives text that starts with the first record's text and is as long as all texts plus one space between each pair. |
| `Ocr.FlattenSplitsBack` | src/lib/ocr.ts:60-62 | When no record's text holds a space, splitting the flat text of a batch on spaces gives every record's text back, in order. |
| `Ocr.JoinSpaces` | src/lib/ocr.ts:61 | `join(' ')` has the parts' total length plus one space between each pair. It starts with the first part. |
| `Ocr.SplitJoinSpaces` | src/lib/ocr.ts:61 | Splitting the joined text at spaces gives back the parts, when no part contains a space. |
| `Ocr.JoinAppend` | src/lib/ocr.ts:61 | Joining two lists is joining each and putting one space between. |
| `Ocr.FlattenBatchAppend` | src/lib/ocr.ts:60-62 | The flat text of a batch is the flat texts of its halves with one space between. |
| `Ocr.FlattenSingletonBatch` | src/lib/ocr.ts:60-62 | A one-record batch flattens like the record alone. A missing `generated_text` becomes `""` both ways. |
| `Ocr.InitializeOcr` | src/lib/ocr.ts:10-29 | A cached engine is returned without any construction. Otherwise WebGPU is tried first, and the default device only when that throws; each is constructed at most once. The call fails exactly when both throw, with the second error. Otherwise it returns the engine the first successful construction built, and caches it. |
| `Ocr.InitializeAll` | src/lib/ocr.ts:10-29 | A run of calls gives one result per call. A cache that is already set is never replaced. |
| `Ocr.EngineIsShared` | src/lib/ocr.ts:8-29 | After one call returns an engine, every later call returns that same engine. With an engine already cached, every call returns it. |
| `Ocr.ExtractTextFromImage` | src/lib/ocr.ts:31-70 | Text is returned exactly when the engine is obtained, the image loads and the inference succeeds; it is the flattened engine output and the object URL is revoked. An engine or inference error is rethrown as the fixed prefix plus its message. A failed image load gives "OCR extraction failed: Unknown error". An engine failure happens before any URL exists. The URL is left unrevoked exactly when the image load or the inference throws. |
| `Upload.ClassifyFileName` | src/pages/Index.tsx:22-30 | Invalid iff the lower-cased name contains "fake" or "invalid". Suspicious iff not invalid and it contains "suspicious" or "test". Valid otherwise. |
| `Upload.ClassifyIgnoresCase` | src/pages/Index.tsx:23 | Names that differ only in letter case get the same status. |
| `Upload.InvalidRuleWins` | src/pages/Index.tsx:26-30 | The invalid rule is checked first: "fake_test.png" and "Invalid_John.png" are invalid. |
| `Upload.DetailsFor` | src/pages/Index.tsx:34-41 | An invalid file shows "Unknown User", "FAKE-001" and "N/A" elsewhere. Other files show John Doe, "CS2023001", "1999-05-15", "CERT-2023-001", "Computer Science" and "2023". |
| `Upload.SuspiciousLooksValid` | src/pages/Index.tsx:34-41 | A suspicious file shows exactly the details of a valid one, and an invalid file does not. |
| `Upload.HandleFile` | src/pages/Index.tsx:32-44 | The result carries the file name's status, that status's details and the constant hash. |
| `Upload.Capitalize` | src/pages/Index.tsx:51 | Same length. The first character is upper-cased and the rest is unchanged. |
| `Upload.ToastLabel` | src/pages/Index.tsx:51 | The label lower-cases back to the status name and starts with a capital letter. |
| `Upload.ToastLabelInjective` | src/pages/Index.tsx:51 | Distinct statuses get distinct labels. |
| `Upload.ToastLabels` | src/pages/Index.tsx:51 | The three labels are "Valid", "Suspicious" and "Invalid". |
| `Admin.MatchesSearchIffOccurs` | src/components/AdminDashboard.tsx:88-90 | A record matches iff the lower-cased term occurs at some offset of its lower-cased student name, certificate number or file name. |
| `Admin.FilterRecords` | src/components/AdminDashboard.tsx:87-91 | The kept records are a subsequence of the input in the same order. A record is kept iff it matches the term. Every copy of a matching record is kept, and no copy of another. |
| `Admin.EmptySearchKeepsAll` | src/components/AdminDashboard.tsx:87-91 | The empty search term keeps every record. |
| `Admin.ExtendedTermMatchesPrefix` | src/components/AdminDashboard.tsx:87-91 | A record matching a longer term matches every prefix of it. |
| `Admin.ExtendingTermNarrows` | src/components/AdminDashboard.tsx:87-91 | Filtering by an extended term equals filtering the earlier result by it. |
| `Admin.CountsPartition` | src/components/AdminDashboard.tsx:93-98 | The valid, suspicious and invalid counts add up to the number of records. |
| `Admin.ComputeStats` | src/components/AdminDashboard.tsx:93-98 | `total` is the number of records. Each status count is the number of records with that status, and the three sum to the total. |
| `Admin.CountIsMultiplicity` | src/components/AdminDashboard.tsx:95-97 | Each status count is that status's multiplicity in the records' statuses. |
| `Admin.StatsAppend` | src/components/AdminDashboard.tsx:95-97 | Status counts add up over concatenated record lists. |
| `Auth.CheckSession` | src/context/AuthContext.tsx:37-48 | Loading ends and the store is untouched. A stored user becomes the current user. |
| `Auth.FullNameOf` | src/context/AuthContext.tsx:59 | The name is the longest prefix of the email without '@', followed by '@' when it is shorter than the email. |
| `Auth.FullNameWithoutAt` | src/context/AuthContext.tsx:59 | An email without '@' is its own name. |
| `Auth.Login` | src/context/AuthContext.tsx:50-66 | The user has id "1", the given email and the derived name. The role is admin iff the email contains "admin". The user is stored under "eduauth_user" and every other key keeps its value. |
| `Auth.AuthenticationAfterTransitions` | src/context/AuthContext.tsx:97 | `isAuthenticated` holds after login and signup and fails after logout. After the initial check it holds exactly when the store has a session. |
| `Auth.LoginIgnoresPassword` | src/context/AuthContext.tsx:50-66 | Any two passwords give the same session. |
| `Auth.Signup` | src/context/AuthContext.tsx:68-84 | The user is a plain user with the given email, name and id. They are stored under the session key and every other key keeps its value. |
| `Auth.Logout` | src/context/AuthContext.tsx:86-89 | No user remains, the session key is removed, and every other key keeps its value. |
| `Auth.ReloadRestoresSession` | src/context/AuthContext.tsx:37-48 | A fresh provider over the store left by login or signup restores the same user. After logout it restores nobody. |
| `OcrScenarios.JohnDoe` | src/lib/ocr.ts:86 | In "Name: John Doe Certificate No: CERT-1" the name stops at "Certificate" and trims to "John Doe". |
| `OcrScenarios.GregoryIsCutShort` | src/lib/ocr.ts:86 | In "Name: Gregory Smith\n" the name is "G": the terminator "reg" matches inside the word "Gregory". |

## Left out

- The recognition engine (model download, WebGPU, inference) is a parameter: what each construction and each inference yields is given as input.
- `Ocr.ExtractTextFromImage`: the engine's output is taken to be one record or an array of records. A `null` result or a `null` array element would throw after the URL is revoked; that case is not modelled.
- Image decoding and the browser's object URL API are reduced to a flag for whether the image loads, and to the URL's final state.
- `Ocr.InitializeOcr`: two calls overlapping while the first construction is in flight may both construct an engine. Calls are modelled one after another.
- Timers and toasts, the processing delays and React rendering are not modelled. `Date.now()`, `toLocaleString()` and the console logging are left out too. The signup id is a parameter.
- `Auth.CheckSession`: the store holds users directly. JSON encoding, and the behaviour when the stored entry is not valid JSON, are not modelled.
- `Text.LowerStr` lower-cases ASCII letters only; `toLowerCase` also maps non-ASCII letters. This affects the classifier and the admin search for non-ASCII names.
- `Upload.Capitalize`: upper-casing is ASCII only, while `toUpperCase` also maps non-ASCII letters and can change the length. It is applied only to the three ASCII status names, so nothing differs.
- Strings are sequences of Unicode scalar values. The source's UTF-16 code units differ only for characters outside the Basic Multilingual Plane.
- The `match[1]` truthiness test: capture group 1 is never empty in any of the seven patterns, so it is always taken.
- The mock record lists of the admin and institution dashboards are left out, as is the institution dashboard's own search. The filter and counts are modelled over any list.
- The other pages and components (upload area, result view, header, route pages) only render state and are not modelled.

## Notes on the source

- `extractTextFromImage` revokes the object URL only on success, at `src/lib/ocr.ts:55`. A failed image load or inference leaves it behind, and `Ocr.ExtractTextFromImage` states exactly when.
- A failed image load rejects with an event, not an `Error`. So the caller sees "OCR extraction failed: Unknown error".
- The mock status depends only on the file name, not on any extracted text. The extracted details are not used for it.
- Terminators and keywords have no word boundaries. So "reg" inside "Gregory" ends a name (`OcrScenarios.GregoryIsCutShort`).
- The roll-number keyword "reg" is a prefix of "registration". When nothing alphanumeric follows "registration" directly or after separators, as in "Registration-No", the engine falls back to "reg". The roll number is then "istration".
- The role check `email.includes('admin')` is case-sensitive, unlike the classifier and the search.
