/** Worked examples of the name field on concrete certificate texts. */
module OcrScenarios {
  import opened Text
  import LazyField
  import Ocr

  const JohnDoeText := "Name: John Doe Certificate No: CERT-1"

  /** The characters of "Name: " and the first letters of the capture. */
  lemma JohnDoeKeywordChars()
    ensures JohnDoeText[0] == 'N' && JohnDoeText[1] == 'a' && JohnDoeText[2] == 'm' && JohnDoeText[3] == 'e'
    ensures JohnDoeText[4] == ':' && JohnDoeText[5] == ' ' && JohnDoeText[6] == 'J' && JohnDoeText[7] == 'o'
  {}

  /** The rest of the capture, "hn Doe ". */
  lemma JohnDoeCaptureChars()
    ensures JohnDoeText[8] == 'h' && JohnDoeText[9] == 'n' && JohnDoeText[10] == ' ' && JohnDoeText[11] == 'D'
    ensures JohnDoeText[12] == 'o' && JohnDoeText[13] == 'e' && JohnDoeText[14] == ' '
  {}

  /** The characters "Certific", the start of the terminator. */
  lemma JohnDoeTerminatorChars()
    ensures JohnDoeText[15] == 'C' && JohnDoeText[16] == 'e' && JohnDoeText[17] == 'r' && JohnDoeText[18] == 't'
    ensures JohnDoeText[19] == 'i' && JohnDoeText[20] == 'f' && JohnDoeText[21] == 'i' && JohnDoeText[22] == 'c'
  {}

  /** The characters "ate", the end of the terminator. */
  lemma JohnDoeTerminatorTailChars()
    ensures JohnDoeText[23] == 'a' && JohnDoeText[24] == 't' && JohnDoeText[25] == 'e'
  {}

  /** A literal whose first character differs from the text's cannot start there. */
  lemma NotLitAt(s: string, i: nat, lit: string)
    requires |lit| > 0 && i < |s| && Lower(s[i]) != lit[0]
    ensures !LitAt(s, i, lit)
  {
  }

  /** No name terminator starts inside "John Doe ". */
  lemma NoEarlierTerminator(e: nat)
    requires 7 <= e < 15
    ensures !AnyLitAt(JohnDoeText, e, Ocr.NamePattern.terminators)
  {
    JohnDoeKeywordChars();
    JohnDoeCaptureChars();
    var ts := Ocr.NamePattern.terminators;
    forall t | 0 <= t < |ts|
      ensures !LitAt(JohnDoeText, e, ts[t])
    {
      NotLitAt(JohnDoeText, e, ts[t]);
    }
  }

  lemma JohnDoeKeyword()
    ensures LitAt(JohnDoeText, 0, Ocr.NamePattern.keywords[0])
  {
    JohnDoeKeywordChars();
  }

  lemma JohnDoeTerminator()
    ensures AnyLitAt(JohnDoeText, 15, Ocr.NamePattern.terminators)
  {
    JohnDoeTerminatorChars();
    JohnDoeTerminatorTailChars();
    assert LitAt(JohnDoeText, 15, Ocr.NamePattern.terminators[1]);
  }

  lemma JohnDoeCaptureClass()
    ensures LazyField.AllCapture(JohnDoeText, 6, 15)
  {
    JohnDoeKeywordChars();
    JohnDoeCaptureChars();
  }

  /** "Name" at 0, separator ": ", capture "John Doe " up to the terminator "Certificate". */
  lemma JohnDoePath()
    ensures LazyField.IsPath(JohnDoeText, Ocr.NamePattern, LazyField.Path(0, 0, 6, 15))
  {
    JohnDoeKeywordChars();
    JohnDoeKeyword();
    JohnDoeTerminator();
    JohnDoeCaptureClass();
    assert AllSep(JohnDoeText, 4, 6);
  }

  /** No route through the name pattern has priority over the one above. */
  lemma JohnDoeFirstPath()
    ensures LazyField.IsFirstPath(JohnDoeText, Ocr.NamePattern, LazyField.Path(0, 0, 6, 15))
  {
    var x := LazyField.Path(0, 0, 6, 15);
    JohnDoePath();
    JohnDoeKeywordChars();
    forall y | LazyField.IsPath(JohnDoeText, Ocr.NamePattern, y)
      ensures !LazyField.Before(y, x)
    {
      assert !IsSepChar(JohnDoeText[6]);
      if y.start == 0 && y.alt == 0 && y.capStart == 6 && y.capEnd < 15 {
        NoEarlierTerminator(y.capEnd);
      }
    }
  }

  lemma JohnDoeTrim()
    ensures Trim(JohnDoeText[6..15]) == "John Doe"
  {
    JohnDoeKeywordChars();
    JohnDoeCaptureChars();
    assert JohnDoeText[6..15] == "John Doe ";
  }

  /** The lazy name capture stops at the first terminator and is then trimmed. */
  lemma JohnDoe()
    ensures Ocr.ExtractCertificateDetails(JohnDoeText).studentName == "John Doe"
  {
    JohnDoeFirstPath();
    JohnDoeTrim();
    var d := Ocr.ExtractCertificateDetails(JohnDoeText);
    assert LazyField.IsFieldValue(JohnDoeText, Ocr.NamePattern, d.studentName);
  }

  const GregoryText := "Name: Gregory Smith\n"

  /** The characters of "Name: " and "Greg", where the terminator "reg" starts at offset 7. */
  lemma GregoryPrefixChars()
    ensures GregoryText[0] == 'N' && GregoryText[1] == 'a' && GregoryText[2] == 'm' && GregoryText[3] == 'e'
    ensures GregoryText[4] == ':' && GregoryText[5] == ' ' && GregoryText[6] == 'G' && GregoryText[7] == 'r'
    ensures GregoryText[8] == 'e' && GregoryText[9] == 'g'
  {}

  /** "Name" at 0, separator ": ", capture "G" up to the terminator "reg" inside "Gregory". */
  lemma GregoryPath()
    ensures LazyField.IsPath(GregoryText, Ocr.NamePattern, LazyField.Path(0, 0, 6, 7))
  {
    GregoryPrefixChars();
    assert LitAt(GregoryText, 0, Ocr.NamePattern.keywords[0]);
    assert LitAt(GregoryText, 7, Ocr.NamePattern.terminators[3]);
    assert AllSep(GregoryText, 4, 6);
  }

  /** No route through the name pattern has priority over the one above. */
  lemma GregoryFirstPath()
    ensures LazyField.IsFirstPath(GregoryText, Ocr.NamePattern, LazyField.Path(0, 0, 6, 7))
  {
    GregoryPath();
    GregoryPrefixChars();
    forall y | LazyField.IsPath(GregoryText, Ocr.NamePattern, y)
      ensures !LazyField.Before(y, LazyField.Path(0, 0, 6, 7))
    {
      assert !IsSepChar(GregoryText[6]);
    }
  }

  lemma GregoryTrim()
    ensures Trim(GregoryText[6..7]) == "G"
  {
    GregoryPrefixChars();
    assert GregoryText[6..7] == "G";
  }

  /** Terminators have no word boundary: the "reg" inside "Gregory" ends the name after one letter. */
  lemma GregoryIsCutShort()
    ensures Ocr.ExtractCertificateDetails(GregoryText).studentName == "G"
  {
    GregoryFirstPath();
    GregoryTrim();
    var d := Ocr.ExtractCertificateDetails(GregoryText);
    assert LazyField.IsFieldValue(GregoryText, Ocr.NamePattern, d.studentName);
  }
}
