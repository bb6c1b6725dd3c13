/**
  The per-case file handling of admin.py: reading a PDF's text page by page
  (`extract_text_from_pdf`), deriving a case id from a file name, and gathering a
  case's general-details, interim and judgment texts (`process_case_files`).

  A cases folder is given as its directory listing, in `os.listdir` order, and, for
  every PDF that can be opened, the texts pdfplumber yields for its pages before any
  failure ("" for a page without text). A listed file without pages there yields "".
 */
module CaseFiles {
  import opened Wrappers
  import opened Str

  datatype Folder = Folder(listing: seq<string>, pdfs: map<string, seq<string>>)

  /** The texts of a case's general-details, interim and judgment documents. */
  datatype CaseTexts = CaseTexts(general: string, interim: string, judgment: string)

  /** Whether any document of the case gave text: the test `pdf_text or pdf_int or pdf_jud`. */
  predicate HasText(t: CaseTexts)
  {
    t.general != "" || t.interim != "" || t.judgment != ""
  }

  /** The text `extract_text_from_pdf` builds: each page that has text, followed by a newline. */
  function PdfText(pages: seq<string>): (text: string)
    ensures text == "" <==> forall k :: 0 <= k < |pages| ==> pages[k] == ""
    ensures text != "" ==> text[|text| - 1] == '\n'
  {
    if pages == [] then ""
    else
      var init := pages[..|pages| - 1];
      var page := pages[|pages| - 1];
      assert forall k :: 0 <= k < |init| ==> init[k] == pages[k];
      if page != "" then PdfText(init) + page + "\n" else PdfText(init)
  }

  /** Page texts of a listed file; one that cannot be opened contributes none. */
  function PagesOf(folder: Folder, name: string): seq<string>
  {
    if name in folder.pdfs then folder.pdfs[name] else []
  }

  function FileText(folder: Folder, name: string): string
  {
    PdfText(PagesOf(folder, name))
  }

  /** `extract_text_from_pdf`: the loop over the pages. */
  method ExtractTextFromPdf(pages: seq<string>) returns (text: string)
    ensures text == PdfText(pages)
  {
    text := "";
    var i := 0;
    while i < |pages|
      invariant 0 <= i <= |pages|
      invariant text == PdfText(pages[..i])
    {
      var pageText := pages[i];
      if pageText != "" {
        text := text + pageText + "\n";
      }
      assert pages[..i + 1][..i] == pages[..i];
      i := i + 1;
    }
    assert pages[..|pages|] == pages;
  }

  predicate IsCaseFile(name: string)
  {
    StartsWith(name, "case_") && EndsWith(name, ".pdf")
  }

  function GeneralFileName(id: string): string
  {
    "case_" + id + ".pdf"
  }

  function JudgmentFileName(id: string): string
  {
    "case_" + id + "_jud.pdf"
  }

  /** The filter of `process_case_files` for interim documents. */
  predicate IsInterimFile(name: string, id: string)
  {
    StartsWith(name, "case_" + id + "_int") && EndsWith(name, ".pdf")
  }

  /** A case file name is at least `case_.pdf` long: its prefix and suffix cannot overlap. */
  lemma CaseFileLength(name: string)
    requires IsCaseFile(name)
    ensures |name| >= 9 && name[|name| - 4] == '.'
  {
    assert name[|name| - 4..][0] == '.';
  }

  /**
    `filename.split('_')[1].split('.')[0]` for a case file: the longest run after `case_`
    free of `'_'` and `'.'`, which always ends at one of them.
   */
  function CaseIdOf(name: string): (id: Option<string>)
    ensures id.Some? <==> IsCaseFile(name)
    ensures id.Some? ==> '_' !in id.value && '.' !in id.value
    ensures id.Some? ==> 5 + |id.value| < |name| && name[5..5 + |id.value|] == id.value
    ensures id.Some? ==> name[5 + |id.value|] == '_' || name[5 + |id.value|] == '.'
  {
    if !IsCaseFile(name) then None
    else
      SplitCaseFileName(name);
      Some(Split(Split(name, '_')[1], '.')[0])
  }

  /** The two splits of a case file name, and where the id they produce ends. */
  lemma SplitCaseFileName(name: string)
    requires IsCaseFile(name)
    ensures |Split(name, '_')| >= 2
    ensures var id := Split(Split(name, '_')[1], '.')[0];
      '_' !in id && '.' !in id && 5 + |id| < |name| && name[5..5 + |id|] == id
      && (name[5 + |id|] == '_' || name[5 + |id|] == '.')
  {
    CaseFileLength(name);
    var tail := name[5..];
    SecondPiece(name);
    var segment := Split(tail, '_')[0];
    SplitFirst(tail, '_');
    var id := Split(segment, '.')[0];
    SplitFirst(segment, '.');
    IdEndsRun(tail, segment, id);
    SliceOfTail(name, 5, |id|);
  }

  lemma SliceOfTail(s: string, a: nat, n: nat)
    requires a + n < |s|
    ensures s[a..][..n] == s[a..a + n] && s[a..][n] == s[a + n]
  {
  }

  /** After `case_`, the second `'_'`-piece of the name is the first piece of the rest. */
  lemma SecondPiece(name: string)
    requires StartsWith(name, "case_")
    ensures |Split(name, '_')| >= 2 && Split(name, '_')[1] == Split(name[5..], '_')[0]
  {
    var tail := name[5..];
    assert name == "case" + ['_'] + tail;
    SplitAfterHead("case", '_', tail);
  }

  /**
    In `tail`, the run `segment` up to the first `'_'`, and inside it the run `id` up to
    the first `'.'`: since `tail` holds a `'.'` four from its end, `id` stops short of it.
   */
  lemma IdEndsRun(tail: string, segment: string, id: string)
    requires 4 <= |tail| && tail[|tail| - 4] == '.'
    requires StartsWith(tail, segment) && (|segment| == |tail| || tail[|segment|] == '_')
    requires '_' !in segment
    requires StartsWith(segment, id) && (|id| == |segment| || segment[|id|] == '.')
    requires '.' !in id
    ensures '_' !in id && |id| < |tail| && tail[..|id|] == id
    ensures tail[|id|] == '_' || tail[|id|] == '.'
  {
    assert forall x :: 0 <= x < |id| ==> id[x] == segment[x];
    if |id| < |segment| {
      assert tail[|id|] == segment[|id|];
    } else if |segment| < |tail| {
      assert tail[|id|] == '_';
    } else {
      assert false;
    }
    assert tail[..|id|] == segment[..|id|];
  }

  /** The contract of `CaseIdOf` pins its result down: any run after `case_` with the same properties is it. */
  lemma CaseIdUnique(name: string, id: string)
    requires IsCaseFile(name)
    requires '_' !in id && '.' !in id
    requires 5 + |id| < |name| && name[5..5 + |id|] == id
    requires name[5 + |id|] == '_' || name[5 + |id|] == '.'
    ensures CaseIdOf(name) == Some(id)
  {
    var r := CaseIdOf(name).value;
    assert |r| == |id|;
  }

  /** The examples of the naming scheme: the general, interim and judgment files of case 12. */
  lemma GeneralFileExample()
    ensures CaseIdOf("case_12.pdf") == Some("12")
  {
    OwnFilesCarryId("12");
    assert GeneralFileName("12") == "case_12.pdf";
  }

  lemma InterimFileExample()
    ensures CaseIdOf("case_12_int1.pdf") == Some("12")
  {
    OwnFilesCarryId("12");
    var interim := "case_12_int1.pdf";
    assert interim[..11] == "case_12_int" && interim[12..] == ".pdf";
    assert IsInterimFile(interim, "12");
  }

  lemma JudgmentFileExample()
    ensures CaseIdOf("case_12_jud.pdf") == Some("12")
  {
    OwnFilesCarryId("12");
    assert JudgmentFileName("12") == "case_12_jud.pdf";
  }

  /** Every file `process_case_files` reads for a case id names that same case id. */
  lemma OwnFilesCarryId(id: string)
    requires '_' !in id && '.' !in id
    ensures CaseIdOf(GeneralFileName(id)) == Some(id)
    ensures CaseIdOf(JudgmentFileName(id)) == Some(id)
    ensures forall name :: IsInterimFile(name, id) ==> CaseIdOf(name) == Some(id)
  {
    var g := GeneralFileName(id);
    assert g[5 + |id|] == '.' && g[5..5 + |id|] == id;
    CaseIdUnique(g, id);
    var u := JudgmentFileName(id);
    assert u[5 + |id|] == '_' && u[5..5 + |id|] == id;
    CaseIdUnique(u, id);
    forall name | IsInterimFile(name, id)
      ensures CaseIdOf(name) == Some(id)
    {
      InterimFileCarriesId(name, id);
    }
  }

  lemma InterimFileCarriesId(name: string, id: string)
    requires '_' !in id && '.' !in id
    requires IsInterimFile(name, id)
    ensures CaseIdOf(name) == Some(id)
  {
    var p := "case_" + id + "_int";
    assert name[..|p|] == p;
    assert name[..5] == p[..5];
    assert name[5..5 + |id|] == p[5..5 + |id|];
    assert name[5 + |id|] == p[5 + |id|];
    CaseIdUnique(name, id);
  }

  /** The texts of the interim documents among `names`, in listing order. */
  function InterimTexts(folder: Folder, names: seq<string>, id: string): seq<string>
  {
    if names == [] then []
    else
      var init := InterimTexts(folder, names[..|names| - 1], id);
      var name := names[|names| - 1];
      if IsInterimFile(name, id) then init + [FileText(folder, name)] else init
  }

  /**
    The interim texts follow the listing: those of a listing made of two parts are the
    texts of the first part followed by those of the second.
   */
  lemma {:induction false} InterimTextsAppend(folder: Folder, first: seq<string>, second: seq<string>, id: string)
    ensures InterimTexts(folder, first + second, id) ==
      InterimTexts(folder, first, id) + InterimTexts(folder, second, id)
    decreases |second|
  {
    if second == [] {
      assert first + second == first;
    } else {
      var init := second[..|second| - 1];
      assert (first + second)[..|first + second| - 1] == first + init;
      InterimTextsAppend(folder, first, init, id);
    }
  }

  /** The text of a document `process_case_files` reads only if the listing has it. */
  function ListedText(folder: Folder, name: string): string
  {
    if name in folder.listing then FileText(folder, name) else ""
  }

  /** The three texts `process_case_files(folder, id)` returns. */
  function CaseTextsOf(folder: Folder, id: string): CaseTexts
  {
    CaseTexts(
      ListedText(folder, GeneralFileName(id)),
      Concat(InterimTexts(folder, folder.listing, id)),
      ListedText(folder, JudgmentFileName(id)))
  }

  /** Every interim document of the case among `names` gave no text. */
  predicate AllInterimEmpty(folder: Folder, names: seq<string>, id: string)
  {
    forall k :: 0 <= k < |names| && IsInterimFile(names[k], id) ==> FileText(folder, names[k]) == ""
  }

  /** The interim text is empty exactly when every listed interim document of the case gave no text. */
  lemma {:induction false} InterimTextEmpty(folder: Folder, names: seq<string>, id: string)
    ensures Concat(InterimTexts(folder, names, id)) == "" <==> AllInterimEmpty(folder, names, id)
  {
    if names != [] {
      var init := names[..|names| - 1];
      var name := names[|names| - 1];
      var texts := InterimTexts(folder, init, id);
      InterimTextEmpty(folder, init, id);
      assert AllInterimEmpty(folder, names, id) <==>
        AllInterimEmpty(folder, init, id) && (IsInterimFile(name, id) ==> FileText(folder, name) == "") by {
        assert forall k :: 0 <= k < |init| ==> init[k] == names[k];
      }
      if IsInterimFile(name, id) {
        ConcatAppend(texts, FileText(folder, name));
      }
    }
  }

  /** A case with no file in the listing gives no text at all, so it is never recorded. */
  lemma NoFilesNoText(folder: Folder, id: string)
    requires '_' !in id && '.' !in id
    requires forall k :: 0 <= k < |folder.listing| ==> CaseIdOf(folder.listing[k]) != Some(id)
    ensures !HasText(CaseTextsOf(folder, id))
  {
    OwnFilesCarryId(id);
    InterimTextEmpty(folder, folder.listing, id);
  }

  /** `process_case_files(cases_folder, case_id)`. */
  method ProcessCaseFiles(folder: Folder, id: string) returns (texts: CaseTexts)
    ensures texts == CaseTextsOf(folder, id)
  {
    var pdfText, pdfInt, pdfJud := "", "", "";
    var generalDetails := GeneralFileName(id);
    if generalDetails in folder.listing {
      pdfText := ExtractTextFromPdf(PagesOf(folder, generalDetails));
    }
    var otherDocuments: seq<string> := [];
    var i := 0;
    while i < |folder.listing|
      invariant 0 <= i <= |folder.listing|
      invariant otherDocuments == InterimTexts(folder, folder.listing[..i], id)
    {
      var filename := folder.listing[i];
      if StartsWith(filename, "case_" + id + "_int") && EndsWith(filename, ".pdf") {
        var text := ExtractTextFromPdf(PagesOf(folder, filename));
        otherDocuments := otherDocuments + [text];
      }
      assert folder.listing[..i + 1][..i] == folder.listing[..i];
      i := i + 1;
    }
    assert folder.listing[..|folder.listing|] == folder.listing;
    pdfInt := Concat(otherDocuments);
    var judgment := JudgmentFileName(id);
    if judgment in folder.listing {
      pdfJud := ExtractTextFromPdf(PagesOf(folder, judgment));
    }
    texts := CaseTexts(pdfText, pdfInt, pdfJud);
  }
}
