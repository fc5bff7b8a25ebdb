/**
 * The outgoing-documents dashboard: one snapshot of every outgoing document,
 * the waiting and finished tables derived from it, and the confirmed status
 * changes (finish, publish, recover) that rewrite one record of it.
 */
module OutgoingDocument {
  import opened Wrappers
  import opened DocumentList
  import Paging

  /** The load post-processing: every document gets `attachments` set from whether it has file URLs. */
  function WithAttachmentFlags(docs: seq<Document>): (r: seq<Document>)
    ensures |r| == |docs|
    ensures forall i | 0 <= i < |r| :: r[i].attachments <==> |docs[i].fileUrls| > 0
    ensures forall i | 0 <= i < |r| :: r[i].(attachments := docs[i].attachments) == docs[i]
  {
    if |docs| == 0 then []
    else [docs[0].(attachments := |docs[0].fileUrls| > 0)] + WithAttachmentFlags(docs[1..])
  }

  class OutgoingDocumentComponent {
    var allDocuments: seq<Document>
    var waitingCurrentPage: nat
    var waitingPageSize: nat
    var waitingTotalItems: nat
    var finishedCurrentPage: nat
    var finishedPageSize: nat
    var finishedTotalItems: nat
    /** The id to highlight in the finished table. */
    var recentlyFinishedDoc: Option<int>
    /** The id to highlight in the waiting table. */
    var recentlyRecoveredDoc: Option<int>

    /** The paginator never reports a page size below one. */
    ghost predicate Valid()
      reads this
    {
      waitingPageSize >= 1 && finishedPageSize >= 1
    }

    constructor ()
      ensures Valid()
      ensures allDocuments == [] && waitingTotalItems == 0 && finishedTotalItems == 0
      ensures waitingCurrentPage == 0 && waitingPageSize == 3
      ensures finishedCurrentPage == 0 && finishedPageSize == 3
      ensures recentlyFinishedDoc == None && recentlyRecoveredDoc == None
    {
      allDocuments := [];
      waitingCurrentPage, waitingPageSize, waitingTotalItems := 0, 3, 0;
      finishedCurrentPage, finishedPageSize, finishedTotalItems := 0, 3, 0;
      recentlyFinishedDoc, recentlyRecoveredDoc := None, None;
    }

    /** `waitingDocumentsAll`: the waiting documents of the snapshot, in document-number order. */
    function WaitingDocumentsAll(): (r: seq<Document>)
      reads this
      ensures forall d :: d in r <==> d in allDocuments && IsWaiting(d)
    {
      var r := SortByNumber(WaitingOf(allDocuments));
      assert forall d :: d in r <==> d in multiset(WaitingOf(allDocuments));
      r
    }

    /** `finishedDocumentsAll`: every other document of the snapshot, in document-number order. */
    function FinishedDocumentsAll(): (r: seq<Document>)
      reads this
      ensures forall d :: d in r <==> d in allDocuments && !IsWaiting(d)
    {
      var r := SortByNumber(FinishedOf(allDocuments));
      assert forall d :: d in r <==> d in multiset(FinishedOf(allDocuments));
      r
    }

    /** `waitingDocuments`: the page of the waiting table on screen. */
    function WaitingDocuments(): (r: seq<Document>)
      reads this
      ensures |r| <= waitingPageSize
      ensures forall d | d in r :: d in allDocuments && IsWaiting(d)
    {
      Paging.Page(WaitingDocumentsAll(), waitingCurrentPage, waitingPageSize)
    }

    /** `finishedDocuments`: the page of the finished table on screen. */
    function FinishedDocuments(): (r: seq<Document>)
      reads this
      ensures |r| <= finishedPageSize
      ensures forall d | d in r :: d in allDocuments && !IsWaiting(d)
    {
      Paging.Page(FinishedDocumentsAll(), finishedCurrentPage, finishedPageSize)
    }

    /** `loadOutgoingDocuments`, given what the backend answered. */
    method LoadOutgoingDocuments(response: LoadResponse)
      requires Valid()
      modifies this
      ensures Valid()
      ensures response.Loaded? ==>
        && allDocuments == WithAttachmentFlags(response.documents)
        && waitingTotalItems == |WaitingOf(allDocuments)|
        && finishedTotalItems == |FinishedOf(allDocuments)|
        && waitingTotalItems + finishedTotalItems == |response.documents|
      ensures response.Loaded? ==>
        && waitingCurrentPage == old(waitingCurrentPage) && waitingPageSize == old(waitingPageSize)
        && finishedCurrentPage == old(finishedCurrentPage) && finishedPageSize == old(finishedPageSize)
        && recentlyFinishedDoc == old(recentlyFinishedDoc) && recentlyRecoveredDoc == old(recentlyRecoveredDoc)
      ensures !response.Loaded? ==> unchanged(this)
    {
      if response.Loaded? {
        var enhanced := WithAttachmentFlags(response.documents);
        Partition(enhanced);
        CommitSnapshot(enhanced);
      }
    }

    /** Installs a fresh snapshot and its two totals; pages and highlights stay. */
    method CommitSnapshot(docs: seq<Document>)
      modifies this`allDocuments, this`waitingTotalItems, this`finishedTotalItems
      ensures allDocuments == docs
      ensures waitingTotalItems == |WaitingOf(docs)| && finishedTotalItems == |FinishedOf(docs)|
    {
      allDocuments := docs;
      waitingTotalItems := |WaitingOf(docs)|;
      finishedTotalItems := |FinishedOf(docs)|;
    }

    method HandleWaitingPageEvent(pageIndex: nat, pageSize: nat)
      requires Valid() && pageSize >= 1
      modifies this`waitingPageSize, this`waitingCurrentPage
      ensures Valid()
      ensures waitingPageSize == pageSize && waitingCurrentPage == pageIndex
    {
      waitingPageSize := pageSize;
      waitingCurrentPage := pageIndex;
    }

    method HandleFinishedPageEvent(pageIndex: nat, pageSize: nat)
      requires Valid() && pageSize >= 1
      modifies this`finishedPageSize, this`finishedCurrentPage
      ensures Valid()
      ensures finishedPageSize == pageSize && finishedCurrentPage == pageIndex
    {
      finishedPageSize := pageSize;
      finishedCurrentPage := pageIndex;
    }

    /**
     * `updateAfterPublish`: mark the record with this id finished, recount the
     * tables and turn the finished table to the page that shows it. Nothing
     * happens when no record has this id.
     */
    method UpdateAfterPublish(id: int)
      requires Valid()
      modifies this
      ensures Valid()
      ensures var t := ApplyStatus(old(allDocuments), id, FINISHED, old(finishedPageSize));
        if t.None? then unchanged(this)
        else
          && allDocuments == t.value.documents
          && waitingTotalItems == t.value.waitingTotal
          && finishedTotalItems == t.value.finishedTotal
          && t.value.targetPage == Some(finishedCurrentPage)
          && recentlyFinishedDoc == Some(id)
          && waitingCurrentPage == old(waitingCurrentPage) && waitingPageSize == old(waitingPageSize)
          && finishedPageSize == old(finishedPageSize) && recentlyRecoveredDoc == old(recentlyRecoveredDoc)
          && Shows(Paging.Page(TargetList(allDocuments, FINISHED), finishedCurrentPage, finishedPageSize), id)
    {
      var t := ApplyStatus(allDocuments, id, FINISHED, finishedPageSize);
      if t.Some? {
        ApplyStatusShowsDocument(allDocuments, id, FINISHED, finishedPageSize);
        CommitFinished(t.value, id);
      }
    }

    /** Installs a status change to finished: snapshot, totals, finished page and highlight. */
    method CommitFinished(tr: Transition, id: int)
      requires tr.targetPage.Some?
      modifies this
      ensures allDocuments == tr.documents && recentlyFinishedDoc == Some(id)
      ensures waitingTotalItems == tr.waitingTotal && finishedTotalItems == tr.finishedTotal
      ensures finishedCurrentPage == tr.targetPage.value
      ensures waitingCurrentPage == old(waitingCurrentPage) && waitingPageSize == old(waitingPageSize)
      ensures finishedPageSize == old(finishedPageSize) && recentlyRecoveredDoc == old(recentlyRecoveredDoc)
    {
      allDocuments := tr.documents;
      recentlyFinishedDoc := Some(id);
      waitingTotalItems := tr.waitingTotal;
      finishedTotalItems := tr.finishedTotal;
      finishedCurrentPage := tr.targetPage.value;
    }

    /** `finishDocument`: once the backend acknowledges the change, the same update as `updateAfterPublish`. */
    method FinishDocument(id: int, acknowledged: bool)
      requires Valid()
      modifies this
      ensures Valid()
      ensures !acknowledged ==> unchanged(this)
      ensures acknowledged ==>
        var t := ApplyStatus(old(allDocuments), id, FINISHED, old(finishedPageSize));
        if t.None? then unchanged(this)
        else
          && allDocuments == t.value.documents
          && waitingTotalItems == t.value.waitingTotal
          && finishedTotalItems == t.value.finishedTotal
          && t.value.targetPage == Some(finishedCurrentPage)
          && recentlyFinishedDoc == Some(id)
          && waitingCurrentPage == old(waitingCurrentPage) && waitingPageSize == old(waitingPageSize)
          && finishedPageSize == old(finishedPageSize) && recentlyRecoveredDoc == old(recentlyRecoveredDoc)
          && Shows(Paging.Page(TargetList(allDocuments, FINISHED), finishedCurrentPage, finishedPageSize), id)
    {
      if acknowledged {
        UpdateAfterPublish(id);
      }
    }

    /**
     * `publishDocument`: once acknowledged, the finish update when the record is
     * in the snapshot, and otherwise a reload, whose answer is `reload`.
     */
    method PublishDocument(id: int, acknowledged: bool, reload: LoadResponse)
      requires Valid()
      modifies this
      ensures Valid()
      ensures !acknowledged ==> unchanged(this)
      ensures acknowledged ==>
        var t := ApplyStatus(old(allDocuments), id, FINISHED, old(finishedPageSize));
        if t.None? then
          && (reload.Loaded? ==>
                && allDocuments == WithAttachmentFlags(reload.documents)
                && waitingTotalItems == |WaitingOf(allDocuments)|
                && finishedTotalItems == |FinishedOf(allDocuments)|
                && waitingTotalItems + finishedTotalItems == |reload.documents|
                && waitingCurrentPage == old(waitingCurrentPage) && waitingPageSize == old(waitingPageSize)
                && finishedCurrentPage == old(finishedCurrentPage) && finishedPageSize == old(finishedPageSize)
                && recentlyFinishedDoc == old(recentlyFinishedDoc)
                && recentlyRecoveredDoc == old(recentlyRecoveredDoc))
          && (!reload.Loaded? ==> unchanged(this))
        else
          && allDocuments == t.value.documents
          && waitingTotalItems == t.value.waitingTotal
          && finishedTotalItems == t.value.finishedTotal
          && t.value.targetPage == Some(finishedCurrentPage)
          && recentlyFinishedDoc == Some(id)
          && waitingCurrentPage == old(waitingCurrentPage) && waitingPageSize == old(waitingPageSize)
          && finishedPageSize == old(finishedPageSize) && recentlyRecoveredDoc == old(recentlyRecoveredDoc)
          && Shows(Paging.Page(TargetList(allDocuments, FINISHED), finishedCurrentPage, finishedPageSize), id)
    {
      if acknowledged {
        if FindIndexById(allDocuments, id).Some? {
          UpdateAfterPublish(id);
        } else {
          LoadOutgoingDocuments(reload);
        }
      }
    }

    /**
     * `recoverDocument`: once acknowledged, mark the record waiting again, recount
     * the tables and turn the waiting table to the page that shows it; reload
     * when the record is not in the snapshot.
     */
    method RecoverDocument(id: int, acknowledged: bool, reload: LoadResponse)
      requires Valid()
      modifies this
      ensures Valid()
      ensures !acknowledged ==> unchanged(this)
      ensures acknowledged ==>
        var t := ApplyStatus(old(allDocuments), id, WAITING, old(waitingPageSize));
        if t.None? then
          && (reload.Loaded? ==>
                && allDocuments == WithAttachmentFlags(reload.documents)
                && waitingTotalItems == |WaitingOf(allDocuments)|
                && finishedTotalItems == |FinishedOf(allDocuments)|
                && waitingTotalItems + finishedTotalItems == |reload.documents|
                && waitingCurrentPage == old(waitingCurrentPage) && waitingPageSize == old(waitingPageSize)
                && finishedCurrentPage == old(finishedCurrentPage) && finishedPageSize == old(finishedPageSize)
                && recentlyFinishedDoc == old(recentlyFinishedDoc)
                && recentlyRecoveredDoc == old(recentlyRecoveredDoc))
          && (!reload.Loaded? ==> unchanged(this))
        else
          && allDocuments == t.value.documents
          && waitingTotalItems == t.value.waitingTotal
          && finishedTotalItems == t.value.finishedTotal
          && t.value.targetPage == Some(waitingCurrentPage)
          && recentlyRecoveredDoc == Some(id)
          && finishedCurrentPage == old(finishedCurrentPage) && finishedPageSize == old(finishedPageSize)
          && waitingPageSize == old(waitingPageSize) && recentlyFinishedDoc == old(recentlyFinishedDoc)
          && Shows(Paging.Page(TargetList(allDocuments, WAITING), waitingCurrentPage, waitingPageSize), id)
    {
      if acknowledged {
        var t := ApplyStatus(allDocuments, id, WAITING, waitingPageSize);
        if t.Some? {
          ApplyStatusShowsDocument(allDocuments, id, WAITING, waitingPageSize);
          CommitRecovered(t.value, id);
        } else {
          LoadOutgoingDocuments(reload);
        }
      }
    }
  
    /** Installs a status change back to waiting: snapshot, totals, waiting page and highlight. */
    method CommitRecovered(tr: Transition, id: int)
      requires tr.targetPage.Some?
      modifies this
      ensures allDocuments == tr.documents && recentlyRecoveredDoc == Some(id)
      ensures waitingTotalItems == tr.waitingTotal && finishedTotalItems == tr.finishedTotal
      ensures waitingCurrentPage == tr.targetPage.value
      ensures finishedCurrentPage == old(finishedCurrentPage) && finishedPageSize == old(finishedPageSize)
      ensures waitingPageSize == old(waitingPageSize) && recentlyFinishedDoc == old(recentlyFinishedDoc)
    {
      allDocuments := tr.documents;
      recentlyRecoveredDoc := Some(id);
      waitingTotalItems := tr.waitingTotal;
      finishedTotalItems := tr.finishedTotal;
      waitingCurrentPage := tr.targetPage.value;
    }
  }
}
