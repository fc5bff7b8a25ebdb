/**
 * The document search page: the search form as a map of field names to
 * strings, the request it sends (page number one more than the paginator's
 * index), the handling of the answer, the order of the results by issue date,
 * and the two string helpers for dates and attachment names.
 */
module SearchDocument {
  import opened Wrappers
  import opened Text
  import opened Calendar
  import Sorting

  // ---------------------------------------------------------------- attachment names

  /**
   * `getShortFileName`: when the text before the first '-' converts to a number
   * (`Number(...)` is not NaN; the empty string converts to 0), drop it and that
   * hyphen; otherwise keep the name as it is. Later hyphens stay.
   */
  function ShortFileName(filename: string): string {
    var parts := Split(filename, '-');
    if |parts| > 1 && IsNumeric(parts[0]) then Join(parts[1..], '-') else filename
  }

  /**
   * Without a hyphen the name stays; with one, the name loses the text before
   * its first hyphen and that hyphen exactly when that text is numeric.
   */
  lemma ShortFileNameCases(filename: string)
    ensures '-' !in filename ==> ShortFileName(filename) == filename
    ensures '-' in filename ==>
      var i := IndexOf(filename, '-');
      ShortFileName(filename) == if IsNumeric(filename[..i]) then filename[i + 1..] else filename
  {
    var parts := Split(filename, '-');
    if '-' in filename {
      var i := IndexOf(filename, '-');
      SplitFirst(filename, '-');
      assert parts[0] == filename[..i];
      JoinSplit(filename[i + 1..], '-');
      assert Join(parts[1..], '-') == filename[i + 1..];
    } else {
      assert IndexOf(filename, '-') == |filename|;
      assert parts == [filename];
    }
  }

  /** A stored name `<digits>-<name>` is shown as `<name>`, whatever hyphens `<name>` holds. */
  lemma StampedFileName(stamp: string, name: string)
    requires AllDigits(stamp)
    ensures ShortFileName(stamp + "-" + name) == name
  {
    var s := stamp + "-" + name;
    assert s[|stamp|] == '-';
    assert '-' !in stamp;
    assert s[..|stamp|] == stamp;
    assert IndexOf(s, '-') == |stamp|;
    DigitsAreNumeric(stamp);
    ShortFileNameCases(s);
    assert s[|stamp| + 1..] == name;
  }

  // ---------------------------------------------------------------- issue dates

  /**
   * The day, month and year of a `DD/MM/YYYY` text: exactly three '/'-separated
   * parts that `parseInt` reads as numbers, the month made 0-based. None when
   * the text does not have that shape.
   */
  function DayMonthYear(s: string): Option<(int, int, int)>
  {
    var parts := Split(s, '/');
    if |parts| != 3 then None
    else
      var day, month, year := ParseInt(parts[0]), ParseInt(parts[1]), ParseInt(parts[2]);
      if day.Some? && month.Some? && year.Some? then Some((day.value, month.value - 1, year.value)) else None
  }

  /**
   * `formatDate`: no date for a missing or empty text; a `DD/MM/YYYY` text is
   * built with `new Date(year, month, day)` (and is no date when that is
   * invalid); any other text goes to `new Date(text)`, the platform's own
   * parser, given here as `parseOther`.
   */
  function FormatDate(dateString: Option<string>, parseOther: string -> Option<Date>): (r: Option<Date>)
    ensures dateString.None? || dateString.value == "" ==> r.None?
    ensures dateString.Some? && dateString.value != "" && '/' !in dateString.value ==>
      r == parseOther(dateString.value)
    ensures dateString.Some? && dateString.value != "" ==>
      var parts := Split(dateString.value, '/');
      (|parts| != 3 || ParseInt(parts[0]).None? || ParseInt(parts[1]).None? || ParseInt(parts[2]).None?) ==>
        r == parseOther(dateString.value)
  {
    if dateString.None? || dateString.value == "" then None
    else
      var s := dateString.value;
      var fields := if '/' in s then DayMonthYear(s) else None;
      match fields
      case Some((day, month, year)) => MakeDate(year, month, day)
      case None => parseOther(s)
  }

  /** A text `a/b/c` whose three parts read as numbers is the date of day `a` of month `b` of year `c`. */
  lemma FormatDateOfDayMonthYear(a: string, b: string, c: string, parseOther: string -> Option<Date>)
    requires '/' !in a && '/' !in b && '/' !in c
    requires ParseInt(a).Some? && ParseInt(b).Some? && ParseInt(c).Some?
    ensures FormatDate(Some(a + "/" + b + "/" + c), parseOther)
            == MakeDate(ParseInt(c).value, ParseInt(b).value - 1, ParseInt(a).value)
  {
    var s := a + "/" + b + "/" + c;
    SplitThree(a, b, c);
    var parts := Split(s, '/');
    assert parts[0] == a && parts[1] == b && parts[2] == c;
    var fields := DayMonthYear(s);
    assert fields.Some?;
    assert fields.value.0 == ParseInt(a).value;
    assert fields.value.1 == ParseInt(b).value - 1;
    assert fields.value.2 == ParseInt(c).value;
    assert s[|a|] == '/';
    assert FormatDate(Some(s), parseOther) == MakeDate(fields.value.2, fields.value.1, fields.value.0);
  }

  lemma SplitThree(a: string, b: string, c: string)
    requires '/' !in a && '/' !in b && '/' !in c
    ensures Split(a + "/" + b + "/" + c, '/') == [a, b, c]
  {
    var parts := [a, b, c];
    assert Join([c], '/') == c;
    assert [b, c][1..] == [c];
    assert Join([b, c], '/') == b + "/" + c;
    assert parts[1..] == [b, c];
    assert Join(parts, '/') == a + "/" + (b + "/" + c);
    assert a + "/" + (b + "/" + c) == a + "/" + b + "/" + c;
    SplitJoin(parts, '/');
  }

  // ---------------------------------------------------------------- results and their order

  /** A search result: only what the list logic reads. `issuedDateObj` is filled in on arrival. */
  datatype SearchResult = SearchResult(id: int, issuedDate: Option<string>, issuedDateObj: Option<Date>)

  const MS_PER_DAY := 86400000

  /** `getTime()` of a date at local midnight, local time taken to be UTC. */
  function Time(d: Date): int {
    d.epochDay * MS_PER_DAY
  }

  /** The arrival step: every result gets `issuedDateObj` from its `issuedDate`; nothing else changes. */
  function WithIssuedDates(docs: seq<SearchResult>, parseOther: string -> Option<Date>): (r: seq<SearchResult>)
    ensures |r| == |docs|
    ensures forall i | 0 <= i < |r| :: r[i].issuedDateObj == FormatDate(docs[i].issuedDate, parseOther)
    ensures forall i | 0 <= i < |r| :: r[i].(issuedDateObj := docs[i].issuedDateObj) == docs[i]
  {
    if |docs| == 0 then []
    else [docs[0].(issuedDateObj := FormatDate(docs[0].issuedDate, parseOther))]
         + WithIssuedDates(docs[1..], parseOther)
  }

  predicate Dated(d: SearchResult) {
    d.issuedDateObj.Some?
  }

  /**
   * The comparator of `sortDocumentsByIssuedDate` as written: 1 when the first
   * result has no date, -1 when only the second has none, else the difference
   * of the two times.
   */
  function IssuedCompare(a: SearchResult, b: SearchResult): int {
    if !Dated(a) then 1
    else if !Dated(b) then -1
    else Time(a.issuedDateObj.value) - Time(b.issuedDateObj.value)
  }

  /**
   * As written, the comparator says an undated result goes after itself and
   * after every other undated result, in both argument orders. ECMAScript
   * leaves the order of `Array.prototype.sort` implementation-defined for
   * such an inconsistent comparator.
   */
  lemma UndatedCompareInconsistently(a: SearchResult, b: SearchResult)
    requires !Dated(a) && !Dated(b)
    ensures IssuedCompare(a, b) > 0 && IssuedCompare(b, a) > 0 && IssuedCompare(a, a) > 0
  {
  }

  /**
   * The order the comparator intends, as "goes no later than": dated results
   * first, by time; undated ones last, equal among themselves.
   */
  predicate IssuedLe(a: SearchResult, b: SearchResult) {
    if Dated(a) && Dated(b) then Time(a.issuedDateObj.value) <= Time(b.issuedDateObj.value)
    else !Dated(a) ==> !Dated(b)
  }

  /** Wherever one of the two results is dated, the comparator as written decides as the intended order does. */
  lemma CompareAgreesWhenDated(a: SearchResult, b: SearchResult)
    requires Dated(a) || Dated(b)
    ensures IssuedCompare(a, b) <= 0 <==> IssuedLe(a, b)
    ensures IssuedCompare(a, b) >= 0 <==> IssuedLe(b, a)
  {
  }

  lemma IssuedLeOrders(s: seq<SearchResult>)
    ensures Sorting.TotalPreorderOn(IssuedLe, s)
  {
  }

  /** `sortDocumentsByIssuedDate` with the intended order: a stable sort by `IssuedLe`. */
  function SortByIssued(docs: seq<SearchResult>): (r: seq<SearchResult>)
    ensures multiset(r) == multiset(docs) && |r| == |docs|
  {
    Sorting.SortBy(docs, IssuedLe)
  }

  /** Dated results come before undated ones, and dated ones ascend by time. */
  lemma SortByIssuedOrder(docs: seq<SearchResult>)
    ensures var r := SortByIssued(docs);
      && (forall i, j | 0 <= i < j < |r| && Dated(r[j]) :: Dated(r[i]))
      && (forall i, j | 0 <= i < j < |r| && Dated(r[i]) && Dated(r[j]) ::
            Time(r[i].issuedDateObj.value) <= Time(r[j].issuedDateObj.value))
  {
    IssuedLeOrders(docs);
    Sorting.SortBySorted(docs, IssuedLe);
  }

  /**
   * Results the intended order calls equal keep the order they arrived in; in
   * particular the undated ones (taking any undated `x`) stay in arrival order.
   */
  lemma SortByIssuedStable(docs: seq<SearchResult>, x: SearchResult)
    ensures Sorting.Peers(SortByIssued(docs), x, IssuedLe) == Sorting.Peers(docs, x, IssuedLe)
  {
    IssuedLeOrders([x] + docs);
    Sorting.SortByStable(docs, x, IssuedLe);
  }

  // ---------------------------------------------------------------- form, request and response

  const DOCUMENT_TYPE := "documentType"
  const INCOMING := "incoming"
  const OUTGOING := "outgoing"

  /** `emptySearchForm`. */
  const EMPTY_SEARCH_FORM: map<string, string> := map[
    DOCUMENT_TYPE := INCOMING,
    "issuedDateFrom" := "",
    "issuedDateTo" := "",
    "author" := "",
    "referenceNumber" := "",
    "summary" := ""]

  const INCOMING_COLUMNS: seq<string> :=
    ["stt", "documentNumber", "receivedDate", "issuedDate", "dueDate", "referenceNumber", "author", "summary", "attachments"]
  const OUTGOING_COLUMNS: seq<string> :=
    ["stt", "referenceNumber", "issuedDate", "author", "summary", "attachments"]

  /** The `documentType` entry of a form, None when it is missing (undefined). */
  function DocumentType(params: map<string, string>): Option<string> {
    if DOCUMENT_TYPE in params then Some(params[DOCUMENT_TYPE]) else None
  }

  /** The table columns for a document type: the incoming set for "incoming", the outgoing set otherwise. */
  function ColumnsFor(documentType: Option<string>): (r: seq<string>)
    ensures r == INCOMING_COLUMNS <==> documentType == Some(INCOMING)
  {
    if documentType == Some(INCOMING) then INCOMING_COLUMNS else OUTGOING_COLUMNS
  }

  datatype SearchEndpoint = IncomingSearch | OutgoingSearch

  /** The endpoint `handleSearch` picks; None for an unknown document type. */
  function EndpointFor(params: map<string, string>): (r: Option<SearchEndpoint>)
    ensures r == Some(IncomingSearch) <==> DocumentType(params) == Some(INCOMING)
    ensures r == Some(OutgoingSearch) <==> DocumentType(params) == Some(OUTGOING)
  {
    match DocumentType(params)
    case Some(t) => if t == INCOMING then Some(IncomingSearch) else if t == OUTGOING then Some(OutgoingSearch) else None
    case None => None
  }

  /** The query `search` sends: the form plus a 1-based page number and the page size. */
  datatype SearchRequest = SearchRequest(params: map<string, string>, page: int, pageSize: int)

  /** The `data` of an answer: its documents and `pagination.totalItems`; None where the part is missing. */
  datatype SearchData = SearchData(documents: Option<seq<SearchResult>>, totalItems: Option<int>)

  /** What the backend answered: a body with or without `data`, or an error. */
  datatype SearchResponse = SearchAnswered(data: Option<SearchData>) | SearchFailed

  /** An answer that carries pagination and at least one document. */
  predicate Delivered(response: SearchResponse) {
    && response.SearchAnswered? && response.data.Some?
    && response.data.value.totalItems.Some?
    && response.data.value.documents.Some? && |response.data.value.documents.value| > 0
  }

  /** An answer whose pagination could be read, so that `totalItems` is taken from it. */
  predicate Paginated(response: SearchResponse) {
    response.SearchAnswered? && response.data.Some? && response.data.value.totalItems.Some?
  }

  class SearchDocumentComponent {
    var searchParams: map<string, string>
    var documents: seq<SearchResult>
    var loading: bool
    var hasSearched: bool
    var displayedColumns: seq<string>
    var pageSize: int
    /** 0-based, as the paginator counts. */
    var pageIndex: int
    var totalItems: int

    constructor ()
      ensures searchParams == EMPTY_SEARCH_FORM && documents == [] && !loading && !hasSearched
      ensures displayedColumns == INCOMING_COLUMNS
      ensures pageSize == 3 && pageIndex == 0 && totalItems == 0
    {
      searchParams := EMPTY_SEARCH_FORM;
      documents := [];
      loading, hasSearched := false, false;
      displayedColumns := INCOMING_COLUMNS;
      pageSize, pageIndex, totalItems := 3, 0, 0;
    }

    /**
     * `onChange(field, value)`: a new document type resets the form to the
     * empty one with that type, empties the results and the pagination and
     * switches the columns; any other change (including the same document type
     * again) sets just that field, an undefined value standing for "".
     */
    method OnChange(field: string, value: Option<string>)
      modifies this
      ensures var v := value.GetOr("");
        if field == DOCUMENT_TYPE && DocumentType(old(searchParams)) != Some(v) then
          && searchParams == EMPTY_SEARCH_FORM[DOCUMENT_TYPE := v]
          && documents == [] && !hasSearched && pageIndex == 0 && totalItems == 0
          && displayedColumns == ColumnsFor(Some(v))
          && loading == old(loading) && pageSize == old(pageSize)
        else
          && searchParams == old(searchParams)[field := v]
          && documents == old(documents) && hasSearched == old(hasSearched)
          && pageIndex == old(pageIndex) && totalItems == old(totalItems)
          && displayedColumns == old(displayedColumns)
          && loading == old(loading) && pageSize == old(pageSize)
    {
      var v := value.GetOr("");
      if field == DOCUMENT_TYPE && DocumentType(searchParams) != Some(v) {
        searchParams := searchParams[field := v];
        displayedColumns := ColumnsFor(Some(v));
        ResetFormForDocumentTypeChange(v);
        documents := [];
        hasSearched := false;
        pageIndex := 0;
        totalItems := 0;
        return;
      }
      searchParams := searchParams[field := v];
    }

    /** `resetFormForDocumentTypeChange`: the empty form with this document type, then `clearResults`. */
    method ResetFormForDocumentTypeChange(documentType: string)
      modifies this`searchParams, this`documents, this`hasSearched, this`pageIndex, this`totalItems,
               this`displayedColumns
      ensures searchParams == EMPTY_SEARCH_FORM[DOCUMENT_TYPE := documentType]
      ensures documents == [] && !hasSearched && pageIndex == 0 && totalItems == 0
      ensures displayedColumns == ColumnsFor(Some(documentType))
    {
      searchParams := EMPTY_SEARCH_FORM[DOCUMENT_TYPE := documentType];
      ClearResults();
    }

    /** `clearResults`: no results, not searched, first page, no total, the columns of the form's type. */
    method ClearResults()
      modifies this`documents, this`hasSearched, this`pageIndex, this`totalItems, this`displayedColumns
      ensures documents == [] && !hasSearched && pageIndex == 0 && totalItems == 0
      ensures displayedColumns == ColumnsFor(DocumentType(searchParams))
    {
      documents := [];
      hasSearched := false;
      pageIndex := 0;
      totalItems := 0;
      displayedColumns := ColumnsFor(DocumentType(searchParams));
    }

    /** `reset`: the empty form (incoming documents) and `clearResults`. */
    method Reset()
      modifies this`searchParams, this`documents, this`hasSearched, this`pageIndex, this`totalItems,
               this`displayedColumns
      ensures searchParams == EMPTY_SEARCH_FORM
      ensures documents == [] && !hasSearched && pageIndex == 0 && totalItems == 0
      ensures displayedColumns == INCOMING_COLUMNS
    {
      searchParams := EMPTY_SEARCH_FORM;
      ClearResults();
    }

    /** `sortDocumentsByIssuedDate`, with the intended order. */
    method SortDocumentsByIssuedDate()
      modifies this`documents
      ensures documents == SortByIssued(old(documents))
    {
      documents := SortByIssued(documents);
    }

    /**
     * `searchDocuments`, given the answer: a readable pagination sets the total;
     * documents that arrived are dated and sorted; an empty list, a body the
     * code cannot read and an error all leave no results. Either way the search
     * has happened and nothing is loading.
     */
    method SearchDocuments(response: SearchResponse, parseOther: string -> Option<Date>)
      modifies this`loading, this`totalItems, this`documents, this`hasSearched
      ensures !loading && hasSearched
      ensures Paginated(response) ==> totalItems == response.data.value.totalItems.value
      ensures !Paginated(response) ==> totalItems == old(totalItems)
      ensures Delivered(response) ==>
        documents == SortByIssued(WithIssuedDates(response.data.value.documents.value, parseOther))
      ensures !Delivered(response) ==> documents == []
    {
      loading := true;
      if Paginated(response) {
        totalItems := response.data.value.totalItems.value;
        if Delivered(response) {
          documents := WithIssuedDates(response.data.value.documents.value, parseOther);
          SortDocumentsByIssuedDate();
          loading := false;
        } else {
          documents := [];
          hasSearched := true;
          loading := false;
        }
      } else {
        documents := [];
        hasSearched := true;
        loading := false;
      }
      hasSearched := true;
      loading := false;
    }

    /** `handleSearch`: search the endpoint of the request's document type; an unknown type only stops loading. */
    method HandleSearch(request: SearchRequest, response: SearchResponse, parseOther: string -> Option<Date>)
      returns (sent: Option<SearchEndpoint>)
      modifies this`loading, this`totalItems, this`documents, this`hasSearched
      ensures sent == EndpointFor(request.params) && !loading
      ensures sent.None? ==>
        totalItems == old(totalItems) && documents == old(documents) && hasSearched == old(hasSearched)
      ensures sent.Some? ==> hasSearched
      ensures sent.Some? && Delivered(response) ==>
        documents == SortByIssued(WithIssuedDates(response.data.value.documents.value, parseOther))
      ensures sent.Some? && !Delivered(response) ==> documents == []
      ensures sent.Some? && Paginated(response) ==> totalItems == response.data.value.totalItems.value
      ensures sent.Some? && !Paginated(response) ==> totalItems == old(totalItems)
    {
      sent := EndpointFor(request.params);
      if sent.Some? {
        SearchDocuments(response, parseOther);
      } else {
        loading := false;
      }
    }

    /** `search`: the form with the paginator's page made 1-based and the page size, then `handleSearch`. */
    method Search(params: map<string, string>, response: SearchResponse, parseOther: string -> Option<Date>)
      returns (request: SearchRequest, sent: Option<SearchEndpoint>)
      modifies this`loading, this`totalItems, this`documents, this`hasSearched
      ensures request == SearchRequest(params, pageIndex + 1, pageSize)
      ensures sent == EndpointFor(params) && !loading
      ensures sent.Some? ==> hasSearched
      ensures sent.Some? && Delivered(response) ==>
        documents == SortByIssued(WithIssuedDates(response.data.value.documents.value, parseOther))
      ensures sent.Some? && !Delivered(response) ==> documents == []
      ensures sent.Some? && Paginated(response) ==> totalItems == response.data.value.totalItems.value
      ensures sent.Some? && !Paginated(response) ==> totalItems == old(totalItems)
      ensures sent.None? ==>
        totalItems == old(totalItems) && documents == old(documents) && hasSearched == old(hasSearched)
    {
      request := SearchRequest(params, pageIndex + 1, pageSize);
      sent := HandleSearch(request, response, parseOther);
    }

    /** `onChangeSearch`: a new search starts on the first page, i.e. requests page 1. */
    method OnChangeSearch(response: SearchResponse, parseOther: string -> Option<Date>)
      returns (request: SearchRequest, sent: Option<SearchEndpoint>)
      modifies this`loading, this`totalItems, this`documents, this`hasSearched, this`pageIndex
      ensures pageIndex == 0 && request == SearchRequest(searchParams, 1, pageSize)
      ensures sent == EndpointFor(searchParams) && !loading
      ensures sent.Some? ==> hasSearched
      ensures sent.Some? && Delivered(response) ==>
        documents == SortByIssued(WithIssuedDates(response.data.value.documents.value, parseOther))
      ensures sent.Some? && !Delivered(response) ==> documents == []
      ensures sent.Some? && Paginated(response) ==> totalItems == response.data.value.totalItems.value
      ensures sent.Some? && !Paginated(response) ==> totalItems == old(totalItems)
      ensures sent.None? ==>
        totalItems == old(totalItems) && documents == old(documents) && hasSearched == old(hasSearched)
    {
      loading := true;
      pageIndex := 0;
      request, sent := Search(searchParams, response, parseOther);
    }

    /** `onPageChange`: take the paginator's page and size and search again for that page. */
    method OnPageChange(index: int, size: int, response: SearchResponse, parseOther: string -> Option<Date>)
      returns (request: SearchRequest, sent: Option<SearchEndpoint>)
      modifies this`loading, this`totalItems, this`documents, this`hasSearched, this`pageIndex, this`pageSize
      ensures pageIndex == index && pageSize == size
      ensures request == SearchRequest(searchParams, index + 1, size)
      ensures sent == EndpointFor(searchParams) && !loading
      ensures sent.Some? ==> hasSearched
      ensures sent.Some? && Delivered(response) ==>
        documents == SortByIssued(WithIssuedDates(response.data.value.documents.value, parseOther))
      ensures sent.Some? && !Delivered(response) ==> documents == []
      ensures sent.Some? && Paginated(response) ==> totalItems == response.data.value.totalItems.value
      ensures sent.Some? && !Paginated(response) ==> totalItems == old(totalItems)
      ensures sent.None? ==>
        totalItems == old(totalItems) && documents == old(documents) && hasSearched == old(hasSearched)
    {
      pageSize := size;
      pageIndex := index;
      loading := true;
      request, sent := Search(searchParams, response, parseOther);
    }
  }
}
