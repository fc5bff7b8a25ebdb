/**
 * The incoming-documents dashboard: the same waiting and finished tables as
 * the outgoing one, over a snapshot stored as the backend sent it, with one
 * confirmed status change (finish, also applied after a transfer).
 */
module IncomingDocument {
  import opened Wrappers
  import opened DocumentList
  import Paging

  class IncomingDocumentComponent {
    var allDocuments: seq<Document>
    var waitingCurrentPage: nat
    var waitingPageSize: nat
    var waitingTotalItems: nat
    var finishedCurrentPage: nat
    var finishedPageSize: nat
    var finishedTotalItems: nat
    /** The id to highlight in the finished table. */
    var recentlyFinishedDoc: Option<int>

    /** The paginator never reports a page size below one. */
    ghost predicate Valid()
      reads this
    {
      waitingPageSize >= 1 && finishedPageSize >= 1
    }

    constructor ()
      ensures Valid()
      ensures allDocuments == [] && waitingTotalItems == 0 && finishedTotalItems == 0
      ensures waitingCurrentPage == 0 && waitingPageSize == 3
      ensures finishedCurrentPage == 0 && finishedPageSize == 3
      ensures recentlyFinishedDoc == None
    {
      allDocuments := [];
      waitingCurrentPage, waitingPageSize, waitingTotalItems := 0, 3, 0;
      finishedCurrentPage, finishedPageSize, finishedTotalItems := 0, 3, 0;
      recentlyFinishedDoc := None;
    }

    /** `waitingDocumentsAll`: the waiting documents of the snapshot, in document-number order. */
    function WaitingDocumentsAll(): (r: seq<Document>)
      reads this
      ensures forall d :: d in r <==> d in allDocuments && IsWaiting(d)
    {
      var r := SortByNumber(WaitingOf(allDocuments));
      assert forall d :: d in r <==> d in multiset(WaitingOf(allDocuments));
      r
    }

    /** `finishedDocumentsAll`: every other document of the snapshot, in document-number order. */
    function FinishedDocumentsAll(): (r: seq<Document>)
      reads this
      ensures forall d :: d in r <==> d in allDocuments && !IsWaiting(d)
    {
      var r := SortByNumber(FinishedOf(allDocuments));
      assert forall d :: d in r <==> d in multiset(FinishedOf(allDocuments));
      r
    }

    /** `waitingDocuments`: the page of the waiting table on screen. */
    function WaitingDocuments(): (r: seq<Document>)
      reads this
      ensures |r| <= waitingPageSize
      ensures forall d | d in r :: d in allDocuments && IsWaiting(d)
    {
      Paging.Page(WaitingDocumentsAll(), waitingCurrentPage, waitingPageSize)
    }

    /** `finishedDocuments`: the page of the finished table on screen. */
    function FinishedDocuments(): (r: seq<Document>)
      reads this
      ensures |r| <= finishedPageSize
      ensures forall d | d in r :: d in allDocuments && !IsWaiting(d)
    {
      Paging.Page(FinishedDocumentsAll(), finishedCurrentPage, finishedPageSize)
    }

    /** `loadIncomingDocuments`, given what the backend answered: the documents are stored as sent. */
    method LoadIncomingDocuments(response: LoadResponse)
      requires Valid()
      modifies this
      ensures Valid()
      ensures response.Loaded? ==>
        && allDocuments == response.documents
        && waitingTotalItems == |WaitingOf(allDocuments)|
        && finishedTotalItems == |FinishedOf(allDocuments)|
        && waitingTotalItems + finishedTotalItems == |response.documents|
      ensures response.Loaded? ==>
        && waitingCurrentPage == old(waitingCurrentPage) && waitingPageSize == old(waitingPageSize)
        && finishedCurrentPage == old(finishedCurrentPage) && finishedPageSize == old(finishedPageSize)
        && recentlyFinishedDoc == old(recentlyFinishedDoc)
      ensures !response.Loaded? ==> unchanged(this)
    {
      if response.Loaded? {
        Partition(response.documents);
        CommitSnapshot(response.documents);
      }
    }

    /** Installs a fresh snapshot and its two totals; pages and highlight stay. */
    method CommitSnapshot(docs: seq<Document>)
      modifies this`allDocuments, this`waitingTotalItems, this`finishedTotalItems
      ensures allDocuments == docs
      ensures waitingTotalItems == |WaitingOf(docs)| && finishedTotalItems == |FinishedOf(docs)|
    {
      allDocuments := docs;
      waitingTotalItems := |WaitingOf(docs)|;
      finishedTotalItems := |FinishedOf(docs)|;
    }

    method HandleWaitingPageEvent(pageIndex: nat, pageSize: nat)
      requires Valid() && pageSize >= 1
      modifies this`waitingPageSize, this`waitingCurrentPage
      ensures Valid()
      ensures waitingPageSize == pageSize && waitingCurrentPage == pageIndex
    {
      waitingPageSize := pageSize;
      waitingCurrentPage := pageIndex;
    }

    method HandleFinishedPageEvent(pageIndex: nat, pageSize: nat)
      requires Valid() && pageSize >= 1
      modifies this`finishedPageSize, this`finishedCurrentPage
      ensures Valid()
      ensures finishedPageSize == pageSize && finishedCurrentPage == pageIndex
    {
      finishedPageSize := pageSize;
      finishedCurrentPage := pageIndex;
    }

    /**
     * `updateAfterTransfer`: mark the record with this id finished, recount the
     * tables and turn the finished table to the page that shows it. Nothing
     * happens when no record has this id.
     */
    method UpdateAfterTransfer(id: int)
      requires Valid()
      modifies this
      ensures Valid()
      ensures var t := ApplyStatus(old(allDocuments), id, FINISHED, old(finishedPageSize));
        if t.None? then unchanged(this)
        else
          && allDocuments == t.value.documents
          && waitingTotalItems == t.value.waitingTotal
          && finishedTotalItems == t.value.finishedTotal
          && t.value.targetPage == Some(finishedCurrentPage)
          && recentlyFinishedDoc == Some(id)
          && waitingCurrentPage == old(waitingCurrentPage) && waitingPageSize == old(waitingPageSize)
          && finishedPageSize == old(finishedPageSize)
          && Shows(Paging.Page(TargetList(allDocuments, FINISHED), finishedCurrentPage, finishedPageSize), id)
    {
      var t := ApplyStatus(allDocuments, id, FINISHED, finishedPageSize);
      if t.Some? {
        ApplyStatusShowsDocument(allDocuments, id, FINISHED, finishedPageSize);
        CommitFinished(t.value, id);
      }
    }

    /** Installs a status change to finished: snapshot, totals, finished page and highlight. */
    method CommitFinished(tr: Transition, id: int)
      requires tr.targetPage.Some?
      modifies this
      ensures allDocuments == tr.documents && recentlyFinishedDoc == Some(id)
      ensures waitingTotalItems == tr.waitingTotal && finishedTotalItems == tr.finishedTotal
      ensures finishedCurrentPage == tr.targetPage.value
      ensures waitingCurrentPage == old(waitingCurrentPage) && waitingPageSize == old(waitingPageSize)
      ensures finishedPageSize == old(finishedPageSize)
    {
      allDocuments := tr.documents;
      recentlyFinishedDoc := Some(id);
      waitingTotalItems := tr.waitingTotal;
      finishedTotalItems := tr.finishedTotal;
      finishedCurrentPage := tr.targetPage.value;
    }

    /**
     * `finishDocument`: once the backend acknowledges the change, the same
     * update as `updateAfterTransfer`; a failed request changes nothing.
     */
    method FinishDocument(id: int, acknowledged: bool)
      requires Valid()
      modifies this
      ensures Valid()
      ensures !acknowledged ==> unchanged(this)
      ensures acknowledged ==>
        var t := ApplyStatus(old(allDocuments), id, FINISHED, old(finishedPageSize));
        if t.None? then unchanged(this)
        else
          && allDocuments == t.value.documents
          && waitingTotalItems == t.value.waitingTotal
          && finishedTotalItems == t.value.finishedTotal
          && t.value.targetPage == Some(finishedCurrentPage)
          && recentlyFinishedDoc == Some(id)
          && waitingCurrentPage == old(waitingCurrentPage) && waitingPageSize == old(waitingPageSize)
          && finishedPageSize == old(finishedPageSize)
          && Shows(Paging.Page(TargetList(allDocuments, FINISHED), finishedCurrentPage, finishedPageSize), id)
    {
      if acknowledged {
        UpdateAfterTransfer(id);
      }
    }
  }
}
