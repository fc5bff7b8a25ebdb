/**
 * The home page: a toggle between incoming and outgoing documents and one
 * server-paged table. The paginator counts pages from 0, the backend from 1.
 */
module Home {
  import opened DocumentList

  const INCOMING_TOGGLE := "incomingDocuments"

  /** The two list endpoints the page reads from. */
  datatype Endpoint = IncomingDocuments | OutgoingDocuments

  /** A list request: endpoint, 1-based page number and page size. */
  datatype PageRequest = PageRequest(endpoint: Endpoint, page: int, pageSize: int)

  /** The pagination block of a list response. */
  datatype Pagination = Pagination(totalItems: int, pageSize: int, currentPage: int)

  /** The answer to a paged list request. */
  datatype PagedResponse = PagedLoaded(documents: seq<Document>, pagination: Pagination) | PagedNoData | PagedFailed

  /** The endpoint the toggle value selects: incoming for "incomingDocuments", outgoing for anything else. */
  function EndpointFor(value: string): (r: Endpoint)
    ensures r == IncomingDocuments <==> value == INCOMING_TOGGLE
  {
    if value == INCOMING_TOGGLE then IncomingDocuments else OutgoingDocuments
  }

  class HomeComponent {
    /** The toggle's value. */
    var value: string
    var document: seq<Document>
    /** 0-based, as the paginator counts. */
    var currentPage: int
    var pageSize: int
    var totalItems: int

    constructor ()
      ensures value == INCOMING_TOGGLE && document == []
      ensures currentPage == 0 && pageSize == 10 && totalItems == 0
    {
      value := INCOMING_TOGGLE;
      document := [];
      currentPage, pageSize, totalItems := 0, 10, 0;
    }

    /** `documentWaiting`: the waiting documents of the current page, in the order received. */
    function DocumentWaiting(): (r: seq<Document>)
      reads this
      ensures forall d :: d in r <==> d in document && IsWaiting(d)
    {
      WaitingOf(document)
    }

    /** `documentFinish`: the other documents of the current page, in the order received. */
    function DocumentFinish(): (r: seq<Document>)
      reads this
      ensures forall d :: d in r <==> d in document && !IsWaiting(d)
    {
      FinishedOf(document)
    }

    /** The two tables share out the page: together they hold each document of it exactly once. */
    lemma TablesSplitPage()
      ensures multiset(DocumentWaiting()) + multiset(DocumentFinish()) == multiset(document)
      ensures |DocumentWaiting()| + |DocumentFinish()| == |document|
    {
      Partition(document);
    }

    /**
     * `loadDocuments`: the request built from the toggle and the paginator
     * (page number one more than the paginator's index), then the answer
     * installed; a response without data or an error changes nothing.
     */
    method LoadDocuments(response: PagedResponse) returns (request: PageRequest)
      modifies this`document, this`totalItems, this`pageSize, this`currentPage
      ensures request == PageRequest(EndpointFor(value), old(currentPage) + 1, old(pageSize))
      ensures response.PagedLoaded? ==>
        && document == response.documents
        && totalItems == response.pagination.totalItems
        && pageSize == response.pagination.pageSize
        && currentPage == response.pagination.currentPage - 1
      ensures response.PagedLoaded? && response.pagination.currentPage == request.page ==>
        currentPage == old(currentPage)
      ensures !response.PagedLoaded? ==>
        document == old(document) && totalItems == old(totalItems)
        && pageSize == old(pageSize) && currentPage == old(currentPage)
    {
      request := PageRequest(EndpointFor(value), currentPage + 1, pageSize);
      if response.PagedLoaded? {
        document := response.documents;
        totalItems := response.pagination.totalItems;
        pageSize := response.pagination.pageSize;
        currentPage := response.pagination.currentPage - 1;
      }
    }

    /** `onChangeToggle`: remember the choice and load from the endpoint it selects. */
    method OnChangeToggle(v: string, response: PagedResponse) returns (request: PageRequest)
      modifies this
      ensures value == v
      ensures request.endpoint == IncomingDocuments <==> v == INCOMING_TOGGLE
      ensures request.page == old(currentPage) + 1 && request.pageSize == old(pageSize)
      ensures response.PagedLoaded? ==>
        && document == response.documents
        && totalItems == response.pagination.totalItems
        && pageSize == response.pagination.pageSize
        && currentPage == response.pagination.currentPage - 1
      ensures response.PagedLoaded? && response.pagination.currentPage == request.page ==>
        currentPage == old(currentPage)
      ensures !response.PagedLoaded? ==>
        document == old(document) && totalItems == old(totalItems)
        && pageSize == old(pageSize) && currentPage == old(currentPage)
    {
      value := v;
      request := LoadDocuments(response);
    }

    /** `handlePageEvent`: take the paginator's page and size, then load that page. */
    method HandlePageEvent(pageIndex: int, size: int, response: PagedResponse) returns (request: PageRequest)
      modifies this`document, this`totalItems, this`pageSize, this`currentPage
      ensures request == PageRequest(EndpointFor(value), pageIndex + 1, size)
      ensures response.PagedLoaded? ==>
        && document == response.documents
        && totalItems == response.pagination.totalItems
        && pageSize == response.pagination.pageSize
        && currentPage == response.pagination.currentPage - 1
      ensures response.PagedLoaded? && response.pagination.currentPage == request.page ==>
        currentPage == pageIndex
      ensures !response.PagedLoaded? ==>
        document == old(document) && totalItems == old(totalItems)
        && pageSize == size && currentPage == pageIndex
    {
      pageSize := size;
      currentPage := pageIndex;
      request := LoadDocuments(response);
    }
  }
}
