/**
 * The dashboard's document snapshot and what the dashboard components derive
 * from it: the waiting/finished partition, the ascending order by the digits
 * of `documentNumber`, the lookup by `id`, and the confirmed status change
 * with the page that then shows the changed document.
 */
module DocumentList {
  import opened Wrappers
  import opened Text
  import Sorting
  import Paging

  /**
   * `documentNumber` as the backend sends it: usually a string such as "CV-012",
   * sometimes a number, `null`, or missing (`undefined`).
   */
  datatype DocumentNumber = Code(code: string) | Numeric(number: int) | Null | Absent

  /** A document record. Only the fields the list logic reads or writes are kept. */
  datatype Document = Document(
    id: int,
    documentNumber: DocumentNumber,
    status: string,
    fileUrls: seq<string>,
    attachments: bool)

  /** The answer to a list request: the documents, a response without `data`, or an error. */
  datatype LoadResponse = Loaded(documents: seq<Document>) | NoData | Failed

  const WAITING := "waiting"
  const FINISHED := "finished"

  predicate IsWaiting(d: Document) {
    d.status == WAITING
  }

  // ---------------------------------------------------------------- partition

  /** `filter(doc => doc.status === 'waiting')` */
  function WaitingOf(s: seq<Document>): (r: seq<Document>)
    ensures forall d :: d in r <==> d in s && IsWaiting(d)
    ensures |r| <= |s|
  {
    if |s| == 0 then []
    else (if IsWaiting(s[0]) then [s[0]] else []) + WaitingOf(s[1..])
  }

  /** `filter(doc => doc.status !== 'waiting')` */
  function FinishedOf(s: seq<Document>): (r: seq<Document>)
    ensures forall d :: d in r <==> d in s && !IsWaiting(d)
    ensures |r| <= |s|
  {
    if |s| == 0 then []
    else (if IsWaiting(s[0]) then [] else [s[0]]) + FinishedOf(s[1..])
  }

  /** The two filters split the snapshot: every document lands in exactly one of them, as often as it occurs. */
  lemma {:induction false} Partition(s: seq<Document>)
    ensures multiset(WaitingOf(s)) + multiset(FinishedOf(s)) == multiset(s)
    ensures |WaitingOf(s)| + |FinishedOf(s)| == |s|
  {
    if |s| > 0 {
      Partition(s[1..]);
      assert s == [s[0]] + s[1..];
    }
  }

  // ---------------------------------------------------------------- order by document number

  /**
   * The comparator's key: `parseInt(documentNumber.replace(/\D/g, ''))` for a
   * string, the value itself otherwise. In the subtraction `null` counts as 0
   * and `undefined` as NaN; None stands for NaN.
   */
  function Key(d: Document): (r: Option<int>)
    ensures d.documentNumber.Code? ==>
      (r.Some? <==> exists c :: c in d.documentNumber.code && IsDigit(c)) &&
      (r.Some? ==> r.value == DecimalValue(Digits(d.documentNumber.code)))
    ensures d.documentNumber.Numeric? ==> r == Some(d.documentNumber.number)
    ensures d.documentNumber.Null? ==> r == Some(0)
    ensures d.documentNumber.Absent? ==> r.None?
  {
    match d.documentNumber
    case Code(s) =>
      ParseIntOfDigits(Digits(s));
      ParseInt(Digits(s))
    case Numeric(n) => Some(n)
    case Null => Some(0)
    case Absent => None
  }

  predicate Keyed(d: Document) {
    Key(d).Some?
  }

  predicate AllKeyed(s: seq<Document>) {
    forall i | 0 <= i < |s| :: Keyed(s[i])
  }

  /**
   * `(a, b) => numA - numB` read as "a goes no later than b": a NaN difference
   * counts as 0, so a document without a key compares equal to every other.
   */
  predicate KeyLe(a: Document, b: Document) {
    match (Key(a), Key(b))
    case (Some(x), Some(y)) => x <= y
    case _ => true
  }

  /** The partition sorted by the comparator, as `filtered.sort(...)` leaves it. */
  function SortByNumber(s: seq<Document>): (r: seq<Document>)
    ensures multiset(r) == multiset(s)
  {
    Sorting.SortBy(s, KeyLe)
  }

  /** When every document has a key, the sorted list is ascending by key. */
  lemma SortByNumberAscending(s: seq<Document>)
    requires AllKeyed(s)
    ensures var r := SortByNumber(s);
      |r| == |s| && AllKeyed(r) &&
      forall i, j | 0 <= i < j < |r| :: Key(r[i]).value <= Key(r[j]).value
  {
    assert Sorting.TotalPreorderOn(KeyLe, s) by {
      forall d | d in s ensures Keyed(d) { }
    }
    Sorting.SortBySorted(s, KeyLe);
    var r := SortByNumber(s);
    forall i | 0 <= i < |r| ensures Keyed(r[i]) {
      assert r[i] in multiset(s);
    }
  }

  /** Documents with equal keys keep the order they have in the snapshot (the sort is stable). */
  lemma SortByNumberStable(s: seq<Document>, x: Document)
    requires AllKeyed(s) && Keyed(x)
    ensures Sorting.Peers(SortByNumber(s), x, KeyLe) == Sorting.Peers(s, x, KeyLe)
  {
    assert Sorting.TotalPreorderOn(KeyLe, [x] + s) by {
      forall d | d in [x] + s ensures Keyed(d) { }
    }
    Sorting.SortByStable(s, x, KeyLe);
  }

  /** Filtering the snapshot keeps the order of the documents with a given key. */
  lemma {:induction false} WaitingPeers(s: seq<Document>, x: Document)
    ensures Sorting.Peers(WaitingOf(s), x, KeyLe) == WaitingOf(Sorting.Peers(s, x, KeyLe))
  {
    if |s| > 0 {
      WaitingPeers(s[1..], x);
      var head := if IsWaiting(s[0]) then [s[0]] else [];
      PeersAppend(head, WaitingOf(s[1..]), x);
      var peer := if Sorting.Equivalent(KeyLe, s[0], x) then [s[0]] else [];
      WaitingAppend(peer, Sorting.Peers(s[1..], x, KeyLe));
    }
  }

  lemma {:induction false} FinishedPeers(s: seq<Document>, x: Document)
    ensures Sorting.Peers(FinishedOf(s), x, KeyLe) == FinishedOf(Sorting.Peers(s, x, KeyLe))
  {
    if |s| > 0 {
      FinishedPeers(s[1..], x);
      var head := if IsWaiting(s[0]) then [] else [s[0]];
      PeersAppend(head, FinishedOf(s[1..]), x);
      var peer := if Sorting.Equivalent(KeyLe, s[0], x) then [s[0]] else [];
      FinishedAppend(peer, Sorting.Peers(s[1..], x, KeyLe));
    }
  }

  lemma {:induction false} PeersAppend(a: seq<Document>, b: seq<Document>, x: Document)
    ensures Sorting.Peers(a + b, x, KeyLe) == Sorting.Peers(a, x, KeyLe) + Sorting.Peers(b, x, KeyLe)
  {
    if |a| > 0 {
      assert (a + b)[1..] == a[1..] + b;
      PeersAppend(a[1..], b, x);
    } else {
      assert a + b == b;
    }
  }

  lemma {:induction false} WaitingAppend(a: seq<Document>, b: seq<Document>)
    ensures WaitingOf(a + b) == WaitingOf(a) + WaitingOf(b)
  {
    if |a| > 0 {
      assert (a + b)[1..] == a[1..] + b;
      WaitingAppend(a[1..], b);
    } else {
      assert a + b == b;
    }
  }

  lemma {:induction false} FinishedAppend(a: seq<Document>, b: seq<Document>)
    ensures FinishedOf(a + b) == FinishedOf(a) + FinishedOf(b)
  {
    if |a| > 0 {
      assert (a + b)[1..] == a[1..] + b;
      FinishedAppend(a[1..], b);
    } else {
      assert a + b == b;
    }
  }

  /**
   * In each sorted table, documents with equal keys appear in the order they
   * have in the snapshot.
   */
  lemma TablesKeepSnapshotOrder(s: seq<Document>, x: Document)
    requires AllKeyed(s) && Keyed(x)
    ensures Sorting.Peers(SortByNumber(WaitingOf(s)), x, KeyLe) == WaitingOf(Sorting.Peers(s, x, KeyLe))
    ensures Sorting.Peers(SortByNumber(FinishedOf(s)), x, KeyLe) == FinishedOf(Sorting.Peers(s, x, KeyLe))
  {
    PartsKeyed(s);
    SortByNumberStable(WaitingOf(s), x);
    SortByNumberStable(FinishedOf(s), x);
    WaitingPeers(s, x);
    FinishedPeers(s, x);
  }

  /** A partition of a snapshot whose documents all have keys has keys throughout. */
  lemma PartsKeyed(s: seq<Document>)
    requires AllKeyed(s)
    ensures AllKeyed(WaitingOf(s)) && AllKeyed(FinishedOf(s))
  {
    var w, f := WaitingOf(s), FinishedOf(s);
    forall i | 0 <= i < |w| ensures Keyed(w[i]) { assert w[i] in s; }
    forall i | 0 <= i < |f| ensures Keyed(f[i]) { assert f[i] in s; }
  }

  // ---------------------------------------------------------------- lookup and status change

  /** `findIndex(doc => doc.id === id)`; None stands for -1. */
  function FindIndexById(s: seq<Document>, id: int): (r: Option<nat>)
    ensures r.Some? ==> r.value < |s| && s[r.value].id == id
    ensures r.Some? ==> forall j | 0 <= j < r.value :: s[j].id != id
    ensures r.None? <==> forall j | 0 <= j < |s| :: s[j].id != id
  {
    if |s| == 0 then None
    else if s[0].id == id then Some(0)
    else match FindIndexById(s[1..], id)
      case None => None
      case Some(k) => Some(k + 1)
  }

  /** Some record on `page` has this `id`. */
  predicate Shows(page: seq<Document>, id: int) {
    exists k :: 0 <= k < |page| && page[k].id == id
  }

  /** `Math.floor(position / pageSize)` for the position of `id` in `sorted`, if it is there. */
  function Relocate(sorted: seq<Document>, id: int, pageSize: nat): (r: Option<nat>)
    requires pageSize >= 1
    ensures r.Some? <==> exists j :: 0 <= j < |sorted| && sorted[j].id == id
    ensures r.Some? ==> Shows(Paging.Page(sorted, r.value, pageSize), id)
  {
    var found := FindIndexById(sorted, id);
    if found.None? then None
    else
      var page := found.value / pageSize;
      PageShowsId(sorted, found.value, pageSize, id, page);
      Some(page)
  }

  lemma PageShowsId(sorted: seq<Document>, pos: nat, pageSize: nat, id: int, page: nat)
    requires pos < |sorted| && sorted[pos].id == id && pageSize >= 1 && page == pos / pageSize
    ensures Shows(Paging.Page(sorted, page, pageSize), id)
  {
    Paging.PageContaining(sorted, pos, pageSize);
    var window := Paging.Page(sorted, page, pageSize);
    assert window[pos % pageSize].id == id;
  }

  /** What a confirmed status change leaves behind. */
  datatype Transition = Transition(
    documents: seq<Document>,
    waitingTotal: nat,
    finishedTotal: nat,
    targetPage: Option<nat>)

  /** The partition a document with this status belongs to, sorted. */
  function TargetList(s: seq<Document>, status: string): seq<Document> {
    if status == WAITING then SortByNumber(WaitingOf(s)) else SortByNumber(FinishedOf(s))
  }

  /**
   * The update applied after the backend acknowledges a status change: copy the
   * snapshot, replace the first record with this `id` by a copy carrying the new
   * status, recount both partitions, and compute the page of the target partition
   * that shows the record. None when no record has this `id`.
   */
  function ApplyStatus(s: seq<Document>, id: int, status: string, pageSize: nat): (r: Option<Transition>)
    requires pageSize >= 1
    ensures r.None? <==> forall j | 0 <= j < |s| :: s[j].id != id
    ensures r.Some? ==>
      var i := FindIndexById(s, id).value;
      && |r.value.documents| == |s|
      && r.value.documents[i] == s[i].(status := status)
      && (forall j | 0 <= j < |s| && j != i :: r.value.documents[j] == s[j])
      && r.value.waitingTotal == |WaitingOf(r.value.documents)|
      && r.value.finishedTotal == |FinishedOf(r.value.documents)|
      && r.value.waitingTotal + r.value.finishedTotal == |s|
  {
    match FindIndexById(s, id)
    case None => None
    case Some(i) =>
      var documents := s[i := s[i].(status := status)];
      Partition(documents);
      Some(Transition(
        documents,
        |WaitingOf(documents)|,
        |FinishedOf(documents)|,
        Relocate(TargetList(documents, status), id, pageSize)))
  }

  /** Every record of a target list is in the partition the status selects. */
  lemma TargetListPartition(docs: seq<Document>, status: string)
    ensures forall d | d in TargetList(docs, status) :: IsWaiting(d) <==> status == WAITING
  {
    forall d | d in TargetList(docs, status) ensures IsWaiting(d) <==> status == WAITING {
      assert d in multiset(TargetList(docs, status));
    }
  }

  /** So is every record on any page of it. */
  lemma TargetPagePartition(docs: seq<Document>, status: string, page: nat, size: nat)
    ensures var p := Paging.Page(TargetList(docs, status), page, size);
      forall k | 0 <= k < |p| :: IsWaiting(p[k]) <==> status == WAITING
  {
    var t := TargetList(docs, status);
    var p := Paging.Page(t, page, size);
    TargetListPartition(docs, status);
    Paging.PageWithin(t, page, size);
    forall k | 0 <= k < |p| ensures IsWaiting(p[k]) <==> status == WAITING {
      assert p[k] in t;
    }
  }

  /**
   * After a status change the changed record is in the partition its new status
   * selects, so the relocation always finds it: the target page of that sorted
   * partition shows a record with this `id`, and every record on that page is in
   * the partition the new status selects.
   */
  lemma ApplyStatusShowsDocument(s: seq<Document>, id: int, status: string, pageSize: nat)
    requires pageSize >= 1
    requires exists j :: 0 <= j < |s| && s[j].id == id
    ensures ApplyStatus(s, id, status, pageSize).Some?
    ensures var t := ApplyStatus(s, id, status, pageSize).value;
      && t.targetPage.Some?
      && var page := Paging.Page(TargetList(t.documents, status), t.targetPage.value, pageSize);
         && Shows(page, id)
         && forall k | 0 <= k < |page| :: IsWaiting(page[k]) <==> status == WAITING
  {
    var t := ApplyStatus(s, id, status, pageSize).value;
    var i := FindIndexById(s, id).value;
    var target := TargetList(t.documents, status);
    var part := if status == WAITING then WaitingOf(t.documents) else FinishedOf(t.documents);
    assert t.documents[i] in part;
    assert t.documents[i] in multiset(target);
    assert exists j :: 0 <= j < |target| && target[j].id == id;
    assert t.targetPage == Relocate(target, id, pageSize);
    TargetPagePartition(t.documents, status, t.targetPage.value, pageSize);
  }
}
