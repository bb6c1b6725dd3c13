/**
  `process_all_cases` in admin.py: one pass over the cases folder's listing that
  handles each case id once, in the order its first file appears, and keeps a record
  (summary, id, extracted details) for every case that gave some text and whose calls
  to the hosted model did not raise.
 */
module Batch {
  import opened Wrappers
  import opened Str
  import opened CaseDetails
  import opened CaseFiles

  /** The folder handed to `process_all_cases`. */
  datatype CasesDir = Missing | NotADirectory | Directory(folder: Folder)

  /** One element of `data_to_pickle`. */
  datatype CaseRecord = CaseRecord(summary: string, fileId: string, details: CaseDetails)

  /**
    `start_case_chat` followed by `generate_content` for one case: the summary text, or
    `None` when either call raised. Each case id reaches it at most once, so one total
    function describes every run.
   */
  type Summariser = (string, CaseTexts) -> Option<string>

  predicate Distinct(xs: seq<string>)
  {
    forall a, b :: 0 <= a < b < |xs| ==> xs[a] != xs[b]
  }

  /** The case ids of the case files among `names`, in listing order, repeats included. */
  function CaseIds(names: seq<string>): seq<string>
  {
    if names == [] then []
    else
      match CaseIdOf(names[|names| - 1])
      case Some(id) => CaseIds(names[..|names| - 1]) + [id]
      case None => CaseIds(names[..|names| - 1])
  }

  /** The case ids are exactly those of the case files in the listing. */
  lemma {:induction false} CaseIdsMembers(names: seq<string>)
    ensures forall x :: x in CaseIds(names) ==> exists k :: 0 <= k < |names| && CaseIdOf(names[k]) == Some(x)
    ensures forall k :: 0 <= k < |names| && IsCaseFile(names[k]) ==> CaseIdOf(names[k]).value in CaseIds(names)
  {
    if names != [] {
      var init := names[..|names| - 1];
      var last := names[|names| - 1];
      assert names == init + [last];
      CaseIdsMembers(init);
      CaseIdsStep(init, last);
      forall x | x in CaseIds(names)
        ensures exists k :: 0 <= k < |names| && CaseIdOf(names[k]) == Some(x)
      {
        if x in CaseIds(init) {
          var k :| 0 <= k < |init| && CaseIdOf(init[k]) == Some(x);
          assert names[k] == init[k];
        } else {
          assert CaseIdOf(names[|names| - 1]) == Some(x);
        }
      }
      forall k | 0 <= k < |names| && IsCaseFile(names[k])
        ensures CaseIdOf(names[k]).value in CaseIds(names)
      {
        if k < |init| {
          assert names[k] == init[k];
        }
      }
    }
  }

  /** The distinct elements of `xs`, each where it first appears. */
  function Dedup(xs: seq<string>): (d: seq<string>)
    ensures forall x :: x in d <==> x in xs
    ensures Distinct(d)
  {
    if xs == [] then []
    else
      var d := Dedup(xs[..|xs| - 1]);
      var x := xs[|xs| - 1];
      assert forall y :: y in xs <==> y in xs[..|xs| - 1] || y == x by {
        assert xs == xs[..|xs| - 1] + [x];
      }
      if x in d then d else d + [x]
  }

  /** Where `x` first appears in `xs`. */
  function FirstIndex(xs: seq<string>, x: string): (k: nat)
    requires x in xs
    ensures k < |xs| && xs[k] == x && x !in xs[..k]
  {
    if xs[0] == x then 0
    else
      var k := FirstIndex(xs[1..], x);
      assert xs[..k + 1] == [xs[0]] + xs[1..][..k];
      1 + k
  }

  lemma FirstIndexExtended(xs: seq<string>, z: string, y: string)
    requires y in xs
    ensures FirstIndex(xs + [z], y) == FirstIndex(xs, y)
  {
    var k, k' := FirstIndex(xs, y), FirstIndex(xs + [z], y);
    assert k < |xs| && (xs + [z])[k] == y;
    assert (xs + [z])[..k] == xs[..k];
  }

  lemma FirstIndexOfNew(xs: seq<string>, z: string)
    requires z !in xs
    ensures FirstIndex(xs + [z], z) == |xs|
  {
  }

  /** `Dedup` keeps the order of first appearance. */
  lemma {:induction false} DedupFirstAppearance(xs: seq<string>)
    ensures forall a, b :: 0 <= a < b < |Dedup(xs)| ==>
      FirstIndex(xs, Dedup(xs)[a]) < FirstIndex(xs, Dedup(xs)[b])
  {
    if xs != [] {
      var init := xs[..|xs| - 1];
      var x := xs[|xs| - 1];
      assert xs == init + [x];
      var d0 := Dedup(init);
      DedupFirstAppearance(init);
      forall y | y in d0
        ensures FirstIndex(xs, y) == FirstIndex(init, y)
      {
        FirstIndexExtended(init, x, y);
      }
      if x !in d0 {
        FirstIndexOfNew(init, x);
      }
    }
  }

  /** What the loop body does for a newly seen case id, if it appends to `data_to_pickle`. */
  function RecordFor(folder: Folder, summarise: Summariser, id: string): Option<CaseRecord>
  {
    var texts := CaseTextsOf(folder, id);
    if !HasText(texts) then None
    else
      match summarise(id, texts)
      case None => None
      case Some(summary) => Some(CaseRecord(summary, id, ExtractCaseDetails(texts.general)))
  }

  /** `data_to_pickle` after handling the case ids `ids` in order. */
  function RecordsFor(folder: Folder, summarise: Summariser, ids: seq<string>): seq<CaseRecord>
  {
    if ids == [] then []
    else
      var init := RecordsFor(folder, summarise, ids[..|ids| - 1]);
      match RecordFor(folder, summarise, ids[|ids| - 1])
      case Some(r) => init + [r]
      case None => init
  }

  lemma CaseIdsStep(names: seq<string>, name: string)
    ensures CaseIds(names + [name]) ==
      CaseIds(names) + (match CaseIdOf(name) case Some(id) => [id] case None => [])
  {
    assert (names + [name])[..|names|] == names;
  }

  lemma DedupStep(xs: seq<string>, x: string)
    ensures Dedup(xs + [x]) == if x in Dedup(xs) then Dedup(xs) else Dedup(xs) + [x]
  {
    assert (xs + [x])[..|xs|] == xs;
  }

  lemma RecordsForStep(folder: Folder, summarise: Summariser, ids: seq<string>, id: string)
    ensures RecordsFor(folder, summarise, ids + [id]) ==
      RecordsFor(folder, summarise, ids)
      + (match RecordFor(folder, summarise, id) case Some(r) => [r] case None => [])
  {
    assert (ids + [id])[..|ids|] == ids;
  }

  /** Every record kept for a sequence of case ids is what handling one of those ids produces. */
  lemma {:induction false} RecordsForSound(folder: Folder, summarise: Summariser, ids: seq<string>)
    ensures forall r :: r in RecordsFor(folder, summarise, ids) ==>
      r.fileId in ids && RecordFor(folder, summarise, r.fileId) == Some(r)
  {
    if ids != [] {
      var init := ids[..|ids| - 1];
      var id := ids[|ids| - 1];
      assert ids == init + [id];
      RecordsForSound(folder, summarise, init);
      RecordsForStep(folder, summarise, init, id);
    }
  }

  /** Every case id among `ids` whose handling produces a record has it kept. */
  lemma {:induction false} RecordsForComplete(folder: Folder, summarise: Summariser, ids: seq<string>)
    ensures forall id :: id in ids && RecordFor(folder, summarise, id).Some? ==>
      RecordFor(folder, summarise, id).value in RecordsFor(folder, summarise, ids)
  {
    if ids != [] {
      var init := ids[..|ids| - 1];
      var id := ids[|ids| - 1];
      assert ids == init + [id];
      RecordsForComplete(folder, summarise, init);
      RecordsForStep(folder, summarise, init, id);
    }
  }

  /** Distinct case ids give records with distinct `file_id`s. */
  lemma {:induction false} RecordsForDistinct(folder: Folder, summarise: Summariser, ids: seq<string>)
    requires Distinct(ids)
    ensures var recs := RecordsFor(folder, summarise, ids);
      forall a, b :: 0 <= a < b < |recs| ==> recs[a].fileId != recs[b].fileId
  {
    if ids != [] {
      var init := ids[..|ids| - 1];
      var id := ids[|ids| - 1];
      assert ids == init + [id];
      assert forall a :: 0 <= a < |init| ==> init[a] == ids[a];
      RecordsForDistinct(folder, summarise, init);
      RecordsForSound(folder, summarise, init);
      RecordsForStep(folder, summarise, init, id);
      var recs0 := RecordsFor(folder, summarise, init);
      match RecordFor(folder, summarise, id)
      case None =>
      case Some(r) =>
        assert r.fileId == id && id !in init;
        forall a | 0 <= a < |recs0| ensures recs0[a].fileId != id {
          assert recs0[a] in recs0;
        }
    }
  }

  /** A record is kept exactly for the cases that gave some text and whose model calls did not raise. */
  lemma RecordMeaning(folder: Folder, summarise: Summariser, id: string)
    ensures RecordFor(folder, summarise, id).Some? <==>
      HasText(CaseTextsOf(folder, id)) && summarise(id, CaseTextsOf(folder, id)).Some?
    ensures RecordFor(folder, summarise, id).Some? ==> var r := RecordFor(folder, summarise, id).value;
      r.fileId == id && r.summary == summarise(id, CaseTextsOf(folder, id)).value
      && r.details == ExtractCaseDetails(CaseTextsOf(folder, id).general)
  {
  }

  /**
    The `try` block of `process_all_cases` for a case id seen for the first time: the
    record appended to `data_to_pickle`, if any.
   */
  method HandleCase(folder: Folder, summarise: Summariser, caseId: string) returns (record: Option<CaseRecord>)
    ensures record == RecordFor(folder, summarise, caseId)
  {
    record := None;
    var texts := ProcessCaseFiles(folder, caseId);
    if texts.general != "" || texts.interim != "" || texts.judgment != "" {
      var reply := summarise(caseId, texts);
      if reply.Some? {
        record := Some(CaseRecord(reply.value, caseId, ExtractCaseDetails(texts.general)));
      }
    }
  }

  /**
    `process_all_cases(cases_folder, output_folder)`. `saved` is the list pickled to
    `case_update.pkl` (`None`: the function returned before writing it); `order` is the
    sequence of case ids `process_case_files` was called with.
   */
  method ProcessAllCases(dir: CasesDir, summarise: Summariser)
    returns (saved: Option<seq<CaseRecord>>, order: seq<string>)
    ensures !dir.Directory? ==> saved == None && order == []
    ensures dir.Directory? ==> order == Dedup(CaseIds(dir.folder.listing))
    ensures dir.Directory? ==> saved == Some(RecordsFor(dir.folder, summarise, order))
  {
    if !dir.Directory? {
      return None, [];
    }
    var folder := dir.folder;
    var processedCases: set<string> := {};
    var dataToPickle: seq<CaseRecord> := [];
    order := [];
    var i := 0;
    while i < |folder.listing|
      invariant 0 <= i <= |folder.listing|
      invariant order == Dedup(CaseIds(folder.listing[..i]))
      invariant forall x :: x in processedCases <==> x in order
      invariant dataToPickle == RecordsFor(folder, summarise, order)
    {
      var filename := folder.listing[i];
      assert folder.listing[..i + 1] == folder.listing[..i] + [filename];
      CaseIdsStep(folder.listing[..i], filename);
      if StartsWith(filename, "case_") && EndsWith(filename, ".pdf") {
        SplitCaseFileName(filename);
        var caseId := Split(Split(filename, '_')[1], '.')[0];
        assert CaseIdOf(filename) == Some(caseId);
        DedupStep(CaseIds(folder.listing[..i]), caseId);
        if caseId !in processedCases {
          processedCases := processedCases + {caseId};
          RecordsForStep(folder, summarise, order, caseId);
          order := order + [caseId];
          var record := HandleCase(folder, summarise, caseId);
          if record.Some? {
            dataToPickle := dataToPickle + [record.value];
          }
        }
      }
      i := i + 1;
    }
    assert folder.listing[..|folder.listing|] == folder.listing;
    saved := Some(dataToPickle);
  }

  /**
    What a run over a directory saves: every case id is handled at most once, so the
    saved `file_id`s are pairwise distinct; a record exists only for a case id named by a
    listed file that gave some text, and every such case whose model calls succeeded
    has one.
   */
  lemma {:induction false} SavedRecords(folder: Folder, summarise: Summariser)
    ensures var recs := RecordsFor(folder, summarise, Dedup(CaseIds(folder.listing)));
      (forall a, b :: 0 <= a < b < |recs| ==> recs[a].fileId != recs[b].fileId)
      && (forall r :: r in recs ==>
            HasText(CaseTextsOf(folder, r.fileId))
            && (exists k :: 0 <= k < |folder.listing| && CaseIdOf(folder.listing[k]) == Some(r.fileId)))
      && (forall k :: 0 <= k < |folder.listing| && IsCaseFile(folder.listing[k]) ==>
            var id := CaseIdOf(folder.listing[k]).value;
            RecordFor(folder, summarise, id).Some? ==> RecordFor(folder, summarise, id).value in recs)
  {
    var ids := Dedup(CaseIds(folder.listing));
    CaseIdsMembers(folder.listing);
    RecordsForSound(folder, summarise, ids);
    RecordsForComplete(folder, summarise, ids);
    RecordsForDistinct(folder, summarise, ids);
  }
}
