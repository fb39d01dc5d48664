/** The bulk PDF merge job (apps/worker/src/pdf-merge-worker.ts): one attempt per selected
    attachment, then stitching. What storage, the converters and the PDF library do is a parameter. */
module PdfMerge {
  import opened Optional
  import opened Text

  /** The bytes produced for an attachment, by what loading them gives: the pages, or a failure. */
  datatype Document = Document(load: Option<seq<string>>)

  /** What happens to one selected attachment. */
  datatype Attempt =
    | Missing // no attachment row
    | Infected
    | Throws(message: string) // producing its PDF fails or times out
    | Produces(doc: Document)

  /** A selected attachment; `objectId` is its object's id, or its own without one. */
  datatype Selected = Selected(objectId: string, attempt: Attempt)

  datatype Failure = Failure(objectId: string, reason: string)

  datatype Status = DONE | FAILED

  /** The job row as finally written: `pages` of the stored file, None without one. */
  datatype Row = Row(status: Status, totalCount: nat, successCount: nat, failureCount: nat,
                     failures: seq<Failure>, pages: Option<seq<string>>)

  const NOT_FOUND := "첨부 정보를 찾을 수 없습니다."
  const INFECTED := "감염 의심 첨부입니다."

  // ---------------------------------------------------------------- what should come out

  predicate Fails(s: Selected) {
    !s.attempt.Produces?
  }

  function FailureOf(s: Selected): Failure
    requires Fails(s)
  {
    match s.attempt
    case Missing => Failure(s.objectId, NOT_FOUND)
    case Infected => Failure(s.objectId, INFECTED)
    case Throws(message) => Failure(s.objectId, message)
  }

  function FailuresOf(selection: seq<Selected>): seq<Failure> {
    if selection == [] then []
    else
      var last := selection[|selection| - 1];
      FailuresOf(selection[..|selection| - 1]) + if Fails(last) then [FailureOf(last)] else []
  }

  function DocsOf(selection: seq<Selected>): seq<Document> {
    if selection == [] then []
    else
      var last := selection[|selection| - 1];
      DocsOf(selection[..|selection| - 1]) + if Fails(last) then [] else [last.attempt.doc]
  }

  predicate AllLoad(docs: seq<Document>) {
    forall k :: 0 <= k < |docs| ==> docs[k].load.Some?
  }

  function Stitched(docs: seq<Document>): seq<string>
    requires AllLoad(docs)
  {
    if docs == [] then [] else Stitched(docs[..|docs| - 1]) + docs[|docs| - 1].load.value
  }

  /** Every produced document loads and, if there is one, the merged file can be saved. */
  predicate CanStitch(selection: seq<Selected>, saves: bool) {
    DocsOf(selection) == [] || (saves && AllLoad(DocsOf(selection)))
  }

  // ---------------------------------------------------------------- the job

  method Collect(selection: seq<Selected>) returns (failures: seq<Failure>, docs: seq<Document>)
    ensures failures == FailuresOf(selection) && docs == DocsOf(selection)
  {
    failures, docs := [], [];
    for i := 0 to |selection|
      invariant failures == FailuresOf(selection[..i]) && docs == DocsOf(selection[..i])
    {
      assert selection[..i + 1][..i] == selection[..i];
      match selection[i].attempt
      case Missing => failures := failures + [Failure(selection[i].objectId, NOT_FOUND)];
      case Infected => failures := failures + [Failure(selection[i].objectId, INFECTED)];
      case Throws(message) => failures := failures + [Failure(selection[i].objectId, message)];
      case Produces(doc) => docs := docs + [doc];
    }
    assert selection[..|selection|] == selection;
  }

  /** Copies every page of every document; None when a document does not load. */
  method Stitch(docs: seq<Document>) returns (merged: Option<seq<string>>)
    ensures merged.Some? <==> AllLoad(docs)
    ensures merged.Some? ==> merged.value == Stitched(docs)
  {
    var pages: seq<string> := [];
    for i := 0 to |docs|
      invariant AllLoad(docs[..i]) && pages == Stitched(docs[..i])
    {
      assert docs[..i + 1][..i] == docs[..i];
      if docs[i].load.None? {
        return None;
      }
      ghost var before := pages;
      for j := 0 to |docs[i].load.value|
        invariant pages == before + docs[i].load.value[..j]
      {
        pages := pages + [docs[i].load.value[j]];
      }
      assert docs[i].load.value[..|docs[i].load.value|] == docs[i].load.value;
    }
    assert docs[..|docs|] == docs;
    return Some(pages);
  }

  /** `processPdfMergeJob` from the loop on; `saves` says whether saving and storing succeed.
      The result is the last row written. */
  method ProcessPdfMergeJob(selection: seq<Selected>, saves: bool) returns (row: Row)
    ensures row.totalCount == |selection| == row.successCount + row.failureCount
    ensures row.failures == FailuresOf(selection)
    ensures CanStitch(selection, saves) ==> row.failureCount == |FailuresOf(selection)|
    ensures !CanStitch(selection, saves) ==> row.failureCount == |selection|
    ensures row.status == DONE <==> DocsOf(selection) != [] && CanStitch(selection, saves)
    ensures row.pages.Some? <==> row.status == DONE
    ensures row.status == DONE ==> row.pages == Some(Stitched(DocsOf(selection)))
  {
    var failures, docs := Collect(selection);
    CountsPartition(selection);
    var total, success, failed := |selection|, |docs|, |failures|;
    var pages: Option<seq<string>> := None;
    if success > 0 {
      pages := Stitch(docs);
      if pages.None? || !saves {
        // the catch block: every attachment is counted as failed
        return Row(FAILED, total, 0, total, failures, None);
      }
    }
    row := Row(if success == 0 then FAILED else DONE, total, success, failed, failures, pages);
  }

  // ---------------------------------------------------------------- conservation and order

  /** Every selected attachment ends up in exactly one of the two lists. */
  lemma {:induction false} CountsPartition(selection: seq<Selected>)
    ensures |FailuresOf(selection)| + |DocsOf(selection)| == |selection|
  {
    if selection != [] {
      CountsPartition(selection[..|selection| - 1]);
    }
  }

  /** What is said about an attachment that failed. */
  ghost predicate Reports(f: Failure, s: Selected) {
    f.objectId == s.objectId &&
    match s.attempt
    case Missing => f.reason == NOT_FOUND
    case Infected => f.reason == INFECTED
    case Throws(message) => f.reason == message
    case Produces(_) => false
  }

  /** The attachment at position i is reported, or contributes its document, at the place that the
      attachments before it leave. */
  lemma {:induction false} PlaceInLists(selection: seq<Selected>, i: nat)
    requires i < |selection|
    ensures !selection[i].attempt.Produces? ==>
              var k := |FailuresOf(selection[..i])|;
              k < |FailuresOf(selection)| && Reports(FailuresOf(selection)[k], selection[i])
    ensures selection[i].attempt.Produces? ==>
              var k := |DocsOf(selection[..i])|;
              k < |DocsOf(selection)| && DocsOf(selection)[k] == selection[i].attempt.doc
  {
    var n := |selection| - 1;
    if i < n {
      PlaceInLists(selection[..n], i);
      assert selection[..n][..i] == selection[..i];
    }
  }

  /** Page j of document d comes right after the pages of all earlier documents and its own earlier
      pages. */
  lemma {:induction false} PlaceInMergedFile(docs: seq<Document>, d: nat, j: nat)
    requires AllLoad(docs) && d < |docs| && j < |docs[d].load.value|
    ensures AllLoad(docs[..d])
    ensures var at := |Stitched(docs[..d])| + j;
            at < |Stitched(docs)| && Stitched(docs)[at] == docs[d].load.value[j]
  {
    var n := |docs| - 1;
    if d < n {
      PlaceInMergedFile(docs[..n], d, j);
      assert docs[..n][..d] == docs[..d];
    }
  }

  /** There are no other pages. */
  lemma {:induction false} PageComesFrom(docs: seq<Document>, at: nat) returns (d: nat, j: nat)
    requires AllLoad(docs) && at < |Stitched(docs)|
    ensures d < |docs| && AllLoad(docs[..d]) && j < |docs[d].load.value|
    ensures at == |Stitched(docs[..d])| + j
  {
    var n := |docs| - 1;
    if at < |Stitched(docs[..n])| {
      d, j := PageComesFrom(docs[..n], at);
      assert docs[..n][..d] == docs[..d];
    } else {
      d, j := n, at - |Stitched(docs[..n])|;
    }
  }

  /** The merge of two selections is the pages of the one followed by those of the other. */
  lemma {:induction false} DocsOfConcat(a: seq<Selected>, b: seq<Selected>)
    ensures DocsOf(a + b) == DocsOf(a) + DocsOf(b)
    ensures FailuresOf(a + b) == FailuresOf(a) + FailuresOf(b)
  {
    if b == [] {
      assert a + b == a;
    } else {
      DocsOfConcat(a, b[..|b| - 1]);
      assert (a + b)[..|a + b| - 1] == a + b[..|b| - 1];
    }
  }

  /** The worker's promise is that a bad attachment costs only itself. It holds for one that fails
      to produce its PDF, but one whose bytes do not load takes the whole merge with it: with a good
      document in the selection and a working store, the job is DONE exactly when all of them load. */
  lemma OneBadDocumentFailsAllIff(before: seq<Selected>, after: seq<Selected>, bad: Selected)
    requires DocsOf(before + after) != [] && AllLoad(DocsOf(before + after))
    ensures CanStitch(before + ([bad] + after), true) <==> Fails(bad) || bad.attempt.doc.load.Some?
  {
    DocsOfConcat(before, after);
    DocsOfConcat(before, [bad] + after);
    DocsOfConcat([bad], after);
    var good, docs, one := DocsOf(before + after), DocsOf(before + ([bad] + after)), DocsOf([bad]);
    assert [bad][..0] == [];
    assert one == if Fails(bad) then [] else [bad.attempt.doc];
    var n := |DocsOf(before)|;
    assert docs == DocsOf(before) + (one + DocsOf(after));
    forall k | 0 <= k < |docs| && !(n <= k < n + |one|)
      ensures docs[k].load.Some?
    {
      assert docs[k] == if k < n then good[k] else good[k - |one|];
    }
    if !Fails(bad) {
      assert docs[n] == bad.attempt.doc;
    }
  }
}
