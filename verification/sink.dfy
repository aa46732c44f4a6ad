/** The content sink: the append-only collection of extracted question and
    answer records kept in each crawler's questions file. */
module Sink {
  import opened Wrappers

  /** One question with its answer, both already trimmed. */
  datatype QuestionResponse = QuestionResponse(question: string, response: string)

  /** The argument of `saveContent`: the pairs found on one page and the
      page fields they all share. The generic inspector has no subcategory. */
  datatype Content = Content(
    questions: seq<QuestionResponse>,
    product: string,
    category: string,
    subcategory: Option<string>)

  /** One stored record. */
  datatype Record = Record(
    product: string,
    category: string,
    subcategory: Option<string>,
    question: string,
    response: string)

  /** The record `saveContent` stores for one pair of `content`. */
  function RecordOf(content: Content, qr: QuestionResponse): Record
  {
    Record(content.product, content.category, content.subcategory, qr.question, qr.response)
  }

  /** `saveContent`: the existing collection followed by one record per pair,
      in pair order. */
  function SaveContent(existing: seq<Record>, content: Content): (r: seq<Record>)
    ensures |r| == |existing| + |content.questions|
    ensures existing <= r
    ensures forall i :: 0 <= i < |content.questions| ==>
              r[|existing| + i] == RecordOf(content, content.questions[i])
    decreases |content.questions|
  {
    if |content.questions| == 0 then existing
    else
      var last := |content.questions| - 1;
      SaveContent(existing, content.(questions := content.questions[..last]))
        + [RecordOf(content, content.questions[last])]
  }

  /** Every record `saveContent` appends carries the page's product,
      category and subcategory. */
  lemma NewRecordsShareFields(existing: seq<Record>, content: Content)
    ensures var r := SaveContent(existing, content);
            forall i :: |existing| <= i < |r| ==>
              && r[i].product == content.product
              && r[i].category == content.category
              && r[i].subcategory == content.subcategory
  {
    var r := SaveContent(existing, content);
    forall i | |existing| <= i < |r|
      ensures r[i].product == content.product
      ensures r[i].category == content.category
      ensures r[i].subcategory == content.subcategory
    {
      assert r[i] == RecordOf(content, content.questions[i - |existing|]);
    }
  }

  /** Saving two batches of pairs for the same page one after the other is
      the same as saving them together. */
  lemma {:induction false} SaveContentSplits(existing: seq<Record>, content: Content, more: seq<QuestionResponse>)
    ensures SaveContent(SaveContent(existing, content), content.(questions := more))
         == SaveContent(existing, content.(questions := content.questions + more))
  {
    var a := SaveContent(SaveContent(existing, content), content.(questions := more));
    var b := SaveContent(existing, content.(questions := content.questions + more));
    assert |a| == |b|;
    forall i | 0 <= i < |a|
      ensures a[i] == b[i]
    {
      var n := |existing|;
      var m := |content.questions|;
      if i < n {
      } else if i < n + m {
        assert a[i] == SaveContent(existing, content)[i];
        assert (content.questions + more)[i - n] == content.questions[i - n];
      } else {
        assert (content.questions + more)[i - n] == more[i - n - m];
      }
    }
  }

  /** The records file when it may not exist yet: a missing file is an empty
      collection. */
  function LoadRecords(blob: Option<seq<Record>>): seq<Record>
  {
    match blob
    case None => []
    case Some(records) => records
  }
}
