/**
  `extract_case_details` in admin.py: five regular-expression searches over the text of
  a case's general-details PDF give the filing number, filing date, disposed date,
  case type and case status. An unmatched field is empty, every field is stripped,
  and a pending case has no disposed date.
 */
module CaseDetails {
  import opened Wrappers
  import opened Str
  import opened Regex

  /** The dictionary `extract_case_details` returns. */
  datatype CaseDetails = CaseDetails(
    filingNo: string,
    filingDate: string,
    disposedDate: string,
    caseType: string,
    caseStatus: string)

  /** `Filing Number (.+?) Filing Date` */
  const FilingNoPattern: Pattern := Lazy("Filing Number ", " Filing Date")
  /** `Filing Date (\d{2}-\d{2}-\d{4})` */
  const FilingDatePattern: Pattern := Date("Filing Date ")
  /** `Disposed date (\d{2}-\d{2}-\d{4})` */
  const DisposedDatePattern: Pattern := Date("Disposed date ")
  /** `Case Type (.+?) Case Status` */
  const CaseTypePattern: Pattern := Lazy("Case Type ", " Case Status")
  /** `Case Status (\w+)` */
  const CaseStatusPattern: Pattern := Word("Case Status ")

  const Pending: string := "PENDING"
  const PendingLower: string := "pending"

  /** `s` is "pending" in any mix of upper and lower case. */
  predicate SpellsPending(s: string)
  {
    |s| == 7 && forall i :: 0 <= i < 7 ==> s[i] == Pending[i] || s[i] == PendingLower[i]
  }

  /** The test `case_status.upper() == 'PENDING'` is a case-insensitive comparison with "pending". */
  lemma UpperIsPending(s: string)
    ensures Upper(s) == Pending <==> SpellsPending(s)
  {
    if |s| == 7 {
      forall i | 0 <= i < 7
        ensures UpperChar(s[i]) == Pending[i] <==> s[i] == Pending[i] || s[i] == PendingLower[i]
      {
      }
      assert Upper(s) == Pending <==> forall i :: 0 <= i < 7 ==> UpperChar(s[i]) == Pending[i];
    }
  }

  /**
    `p.search(text).group(1).strip() if p.search(text) else ""`: nothing without a
    match, otherwise the stripped group of the match `re.search` reports.
   */
  function Field(p: Pattern, text: string): (r: string)
    ensures !HasMatch(p, text) ==> r == ""
    ensures forall m :: IsPythonMatch(p, text, m) ==> r == Strip(m.group)
    ensures IsStripped(r)
  {
    match Search(p, text)
    case None => ""
    case Some(m) =>
      assert forall m' :: IsPythonMatch(p, text, m') ==> Strip(m'.group) == Strip(m.group) by {
        forall m' | IsPythonMatch(p, text, m')
          ensures Strip(m'.group) == Strip(m.group)
        {
          PythonMatchUnique(p, text, m', m);
        }
      }
      Strip(m.group)
  }

  /** The group of a date or word pattern has no whitespace to strip. */
  lemma GroupNeedsNoStrip(p: Pattern, text: string, m: Match)
    requires p.Date? || p.Word?
    requires IsPythonMatch(p, text, m)
    ensures Strip(m.group) == m.group
  {
    GroupShape(p, text, m);
    if p.Date? {
      assert IsDigit(m.group[0]) && IsDigit(m.group[9]);
    } else {
      assert IsWordChar(m.group[0]) && IsWordChar(m.group[|m.group| - 1]);
    }
    StripStripped(m.group);
  }

  /** A date or word field is the group of the match itself. */
  lemma UnstrippedField(p: Pattern, text: string)
    requires p.Date? || p.Word?
    ensures forall m :: IsPythonMatch(p, text, m) ==> Field(p, text) == m.group
  {
    forall m | IsPythonMatch(p, text, m) ensures Field(p, text) == m.group {
      PythonMatchUnique(p, text, m, Search(p, text).value);
      GroupNeedsNoStrip(p, text, m);
    }
  }

  /** A date field is either empty or the ten characters `dd-dd-dddd`, and it is empty only without a match. */
  lemma DateFieldShape(p: Pattern, text: string)
    requires p.Date?
    ensures Field(p, text) == "" || IsDateShape(Field(p, text))
    ensures Field(p, text) != "" <==> HasMatch(p, text)
  {
    if Search(p, text).Some? {
      var m := Search(p, text).value;
      GroupShape(p, text, m);
      GroupNeedsNoStrip(p, text, m);
    }
  }

  /** A `\w+` field is either empty or a run of word characters, and it is empty only without a match. */
  lemma WordFieldShape(p: Pattern, text: string)
    requires p.Word?
    ensures forall x :: 0 <= x < |Field(p, text)| ==> IsWordChar(Field(p, text)[x])
    ensures Field(p, text) != "" <==> HasMatch(p, text)
  {
    if Search(p, text).Some? {
      var m := Search(p, text).value;
      GroupShape(p, text, m);
      GroupNeedsNoStrip(p, text, m);
    }
  }

  /** A `.+?` field holds no newline: `.` never consumes one, and stripping only removes characters. */
  lemma LazyFieldSingleLine(p: Pattern, text: string)
    requires p.Lazy?
    ensures '\n' !in Field(p, text)
  {
    if Search(p, text).Some? {
      var m := Search(p, text).value;
      GroupShape(p, text, m);
      StripKeepsChars(m.group);
    }
  }

  /** `extract_case_details(text)`. */
  function ExtractCaseDetails(text: string): (d: CaseDetails)
    ensures Upper(d.caseStatus) == Pending ==> d.disposedDate == ""
    ensures !HasMatch(FilingNoPattern, text) ==> d.filingNo == ""
    ensures !HasMatch(CaseTypePattern, text) ==> d.caseType == ""
    ensures d.filingDate != "" <==> HasMatch(FilingDatePattern, text)
    ensures d.filingDate != "" ==> IsDateShape(d.filingDate)
    ensures d.disposedDate != "" <==> HasMatch(DisposedDatePattern, text) && Upper(d.caseStatus) != Pending
    ensures d.disposedDate != "" ==> IsDateShape(d.disposedDate)
    ensures d.caseStatus != "" <==> HasMatch(CaseStatusPattern, text)
    ensures forall x :: 0 <= x < |d.caseStatus| ==> IsWordChar(d.caseStatus[x])
    ensures IsStripped(d.filingNo) && '\n' !in d.filingNo
    ensures IsStripped(d.caseType) && '\n' !in d.caseType
    ensures IsStripped(d.caseStatus)
    ensures forall m :: IsPythonMatch(FilingNoPattern, text, m) ==> d.filingNo == Strip(m.group)
    ensures forall m :: IsPythonMatch(FilingDatePattern, text, m) ==> d.filingDate == m.group
    ensures forall m :: IsPythonMatch(DisposedDatePattern, text, m) && Upper(d.caseStatus) != Pending ==>
      d.disposedDate == m.group
    ensures forall m :: IsPythonMatch(CaseTypePattern, text, m) ==> d.caseType == Strip(m.group)
    ensures forall m :: IsPythonMatch(CaseStatusPattern, text, m) ==> d.caseStatus == m.group
  {
    var filingNo := Field(FilingNoPattern, text);
    var filingDate := Field(FilingDatePattern, text);
    var disposedDate := Field(DisposedDatePattern, text);
    var caseType := Field(CaseTypePattern, text);
    var caseStatus := Field(CaseStatusPattern, text);
    DateFieldShape(FilingDatePattern, text);
    DateFieldShape(DisposedDatePattern, text);
    UnstrippedField(FilingDatePattern, text);
    UnstrippedField(DisposedDatePattern, text);
    UnstrippedField(CaseStatusPattern, text);
    WordFieldShape(CaseStatusPattern, text);
    LazyFieldSingleLine(FilingNoPattern, text);
    LazyFieldSingleLine(CaseTypePattern, text);
    CaseDetails(
      filingNo,
      filingDate,
      if Upper(caseStatus) == Pending then "" else disposedDate,
      caseType,
      caseStatus)
  }

  /** A status spelled "pending" in any case, such as "Pending" or "pending", clears the disposed date. */
  lemma PendingClearsDisposedDate(text: string)
    ensures SpellsPending(ExtractCaseDetails(text).caseStatus) ==> ExtractCaseDetails(text).disposedDate == ""
    ensures ExtractCaseDetails(text).disposedDate != "" ==>
      !SpellsPending(ExtractCaseDetails(text).caseStatus) && HasMatch(DisposedDatePattern, text)
  {
    UpperIsPending(ExtractCaseDetails(text).caseStatus);
  }
}
