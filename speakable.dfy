/**
 * FreeTTSSpeakableImpl: one item of speech, made from text, a document or
 * a stream, and the completed / cancelled state the output thread leaves
 * it in.
 */
module Speakables {
  import opened JavaLang
  import opened Wrappers

  /** What the output thread reports about an item. */
  datatype Report = Completed | Cancelled

  /** The (completed, cancelled) flags after one report. */
  function AfterReport(state: (bool, bool), e: Report): (bool, bool) {
    match e
    case Completed => (true, state.1)
    case Cancelled => (true, true)
  }

  /** The flags after a run of reports, starting from a fresh item. */
  function AfterReports(es: seq<Report>): (bool, bool) {
    if es == [] then (false, false) else AfterReport(AfterReports(es[..|es| - 1]), es[|es| - 1])
  }

  /**
   * After any run of reports the item is completed iff there was a report,
   * cancelled iff one of them was a cancellation, and never cancelled
   * without being completed.
   */
  lemma {:induction false} ReportsOutcome(es: seq<Report>)
    ensures AfterReports(es).0 <==> es != []
    ensures AfterReports(es).1 <==> Cancelled in es
    ensures AfterReports(es).1 ==> AfterReports(es).0
  {
    if es != [] {
      var init := es[..|es| - 1];
      ReportsOutcome(init);
      assert es == init + [es[|es| - 1]];
      assert Cancelled in es <==> Cancelled in init || es[|es| - 1] == Cancelled;
    }
  }

  /** An item of speech; `D` is the document type and `S` the stream type. */
  class FreeTTSSpeakableImpl<D, S> {
    const doc: Option<D>
    const text: Option<JString>
    const inputStream: Option<S>
    var completed: bool
    var cancelled: bool

    /** A cancelled item is completed. */
    ghost predicate Valid()
      reads this
    {
      cancelled ==> completed
    }

    /** An item of plain text; a null text makes an item of no kind. */
    constructor FromText(text: Option<JString>)
      ensures Valid() && !completed && !cancelled
      ensures this.text == text && doc == None && inputStream == None
      ensures IsPlainText() == text.Some? && !IsDocument() && !IsStream()
    {
      this.text := text;
      doc := None;
      inputStream := None;
      completed := false;
      cancelled := false;
    }

    /** An item of a document. */
    constructor FromDocument(doc: Option<D>)
      ensures Valid() && !completed && !cancelled
      ensures this.doc == doc && text == None && inputStream == None
      ensures IsDocument() == doc.Some? && !IsPlainText() && !IsStream()
    {
      this.doc := doc;
      text := None;
      inputStream := None;
      completed := false;
      cancelled := false;
    }

    /** An item of a stream. */
    constructor FromStream(inputStream: Option<S>)
      ensures Valid() && !completed && !cancelled
      ensures this.inputStream == inputStream && text == None && doc == None
      ensures IsStream() == inputStream.Some? && !IsPlainText() && !IsDocument()
    {
      this.inputStream := inputStream;
      text := None;
      doc := None;
      completed := false;
      cancelled := false;
    }

    /** `completed()`: the item is done; a cancellation stays. */
    method ReportCompleted()
      requires Valid()
      modifies this
      ensures Valid()
      ensures (completed, cancelled) == AfterReport((old(completed), old(cancelled)), Completed)
    {
      completed := true;
    }

    /** `cancelled()`: the item is done and cancelled. */
    method ReportCancelled()
      modifies this
      ensures Valid()
      ensures (completed, cancelled) == AfterReport((old(completed), old(cancelled)), Cancelled)
    {
      completed := true;
      cancelled := true;
    }

    predicate IsCompleted()
      reads this
    {
      completed
    }

    /**
     * `waitCompleted()`: once the item is completed, whether it was not
     * cancelled; an interrupted wait answers false. Otherwise the caller
     * is still blocked, shown as None.
     */
    method WaitCompleted(interrupted: bool) returns (r: Option<bool>)
      ensures completed ==> r == Some(!cancelled)
      ensures !completed && interrupted ==> r == Some(false)
      ensures !completed && !interrupted ==> r == None
    {
      if completed {
        return Some(!cancelled);
      }
      if interrupted {
        return Some(false);
      }
      r := None;
    }

    predicate IsPlainText() { text.Some? }

    predicate IsDocument() { doc.Some? }

    predicate IsStream() { inputStream.Some? }
  }
}
