/**
 * The store-access layer (`DatabaseManager` in database.py): the session
 * resolver behind `get_latest_products`, the session-bucketed stock history
 * of `get_stock_history` and `get_latest_scraping_session`. The SQL each one
 * sends is written out here as functions over the two tables; a store that
 * fails (`Down`) stands for every path that ends in the `except` branch.
 */
module Database {
  import opened Records
  import opened Text
  import opened Collections
  import opened Tally

  const CompletedStatus := "completed"
  const InStockStatus := "In Stock"

  /** `status ILIKE 'completed'`: equality after case folding; a NULL status never matches. */
  predicate IsCompleted(s: Session) {
    s.status.Some? && Lower(s.status.value) == CompletedStatus
  }

  /**
   * PostgreSQL's default order on a nullable timestamp, where NULL sorts above
   * every value: so `DESC` puts NULLs first and `ASC` puts them last.
   */
  predicate AtMost(x: Option<int>, y: Option<int>) {
    y.None? || (x.Some? && x.value <= y.value)
  }

  /** `a` may precede `b` under `ORDER BY session_start DESC`. */
  predicate LaterStartFirst(a: Session, b: Session) {
    AtMost(b.start, a.start)
  }

  /** `a` may precede `b` under `ORDER BY session_start` (ascending), read on history dates. */
  predicate EarlierDateFirst(a: HistoryPoint, b: HistoryPoint) {
    AtMost(a.date, b.date)
  }

  lemma LaterStartFirstIsPreorder()
    ensures TotalPreorder(LaterStartFirst)
  {
  }

  lemma EarlierDateFirstIsPreorder()
    ensures TotalPreorder(EarlierDateFirst)
  {
  }

  /** `s` is a completed session that no completed session of `ss` outranks under `session_start DESC`. */
  ghost predicate IsLatestCompleted(s: Session, ss: seq<Session>) {
    s in ss && IsCompleted(s) && forall t :: t in ss && IsCompleted(t) ==> AtMost(t.start, s.start)
  }

  /** A sorted sequence's first element comes no later than any element of it. */
  lemma FirstOfSorted<T>(s: seq<T>, before: (T, T) -> bool, x: T)
    requires SortedBy(s, before) && x in s && x != s[0]
    ensures before(s[0], x)
  {
    var k :| 0 <= k < |s| && s[k] == x;
  }

  /**
   * The first row of `... WHERE status ILIKE 'completed' ORDER BY
   * session_start DESC LIMIT 1`, or None when no session is completed.
   */
  function LatestCompleted(ss: seq<Session>): (r: Option<Session>)
    ensures r.None? <==> forall s :: s in ss ==> !IsCompleted(s)
    ensures r.Some? ==> IsLatestCompleted(r.value, ss)
  {
    LaterStartFirstIsPreorder();
    var ordered := SortBy(Filter(ss, IsCompleted), LaterStartFirst);
    CompletedInOrder(ss, ordered);
    if |ordered| == 0 then None else Some(ordered[0])
  }

  /** The completed sessions in `DESC` order: exactly the completed ones, the first of them the latest. */
  lemma CompletedInOrder(ss: seq<Session>, ordered: seq<Session>)
    requires multiset(ordered) == multiset(Filter(ss, IsCompleted))
    requires SortedBy(ordered, LaterStartFirst)
    ensures forall s :: s in ordered <==> s in ss && IsCompleted(s)
    ensures |ordered| > 0 ==> IsLatestCompleted(ordered[0], ss)
  {
    forall s
      ensures s in ordered <==> s in ss && IsCompleted(s)
    {
      assert s in ordered <==> s in multiset(ordered);
      assert s in ss <==> s in multiset(ss);
    }
    if |ordered| > 0 {
      forall t | t in ss && IsCompleted(t)
        ensures AtMost(t.start, ordered[0].start)
      {
        if t != ordered[0] {
          FirstOfSorted(ordered, LaterStartFirst, t);
        }
      }
    }
  }

  /**
   * The inclusive window `get_latest_products` reads: the bounds of the latest
   * completed session, or None when the store fails, no session is completed,
   * or the chosen session lacks a start or an end.
   */
  function LatestWindow(store: Store): (w: Option<(int, int)>)
    ensures w.Some? ==>
      store.Up? &&
      exists s :: IsLatestCompleted(s, store.snapshot.sessions) && s.start == Some(w.value.0) && s.end == Some(w.value.1)
    ensures w.None? && store.Up? ==>
      || (forall s :: s in store.snapshot.sessions ==> !IsCompleted(s))
      || (exists s :: IsLatestCompleted(s, store.snapshot.sessions) && (s.start.None? || s.end.None?))
  {
    match store
    case Down => None
    case Up(snap) =>
      match LatestCompleted(snap.sessions)
      case None => None
      case Some(s) =>
        if s.start.None? || s.end.None? then None else Some((s.start.value, s.end.value))
  }

  /** `p.processing_timestamp >= lo AND p.processing_timestamp <= hi`; a NULL timestamp matches nothing. */
  predicate InWindow(p: Product, lo: int, hi: int) {
    p.processedAt.Some? && lo <= p.processedAt.value <= hi
  }

  function Within(lo: int, hi: int): Product -> bool {
    (p: Product) => InWindow(p, lo, hi)
  }

  /**
   * `get_latest_products`: every product row processed inside the latest
   * completed session's inclusive window, each as often as it occurs in the
   * table (the query has no `ORDER BY`, so only the multiset is fixed); an
   * empty frame when there is no usable window.
   */
  function LatestProducts(store: Store): (f: Frame)
    ensures LatestWindow(store).None? ==> f == EmptyFrame
    ensures LatestWindow(store).Some? ==>
      var (lo, hi) := LatestWindow(store).value;
      && f.columns == ProductColumns
      && forall p :: multiset(f.rows)[p] == if InWindow(p, lo, hi) then multiset(store.snapshot.products)[p] else 0
  {
    match LatestWindow(store)
    case None => EmptyFrame
    case Some((lo, hi)) => Frame(ProductColumns, Filter(store.snapshot.products, Within(lo, hi)))
  }

  /**
   * Under `DESC` a NULL `session_start` sorts first, so one completed session
   * without a start hides every other session: the latest products are empty.
   */
  lemma NullStartHidesLatestProducts(snap: Snapshot, s: Session)
    requires s in snap.sessions && IsCompleted(s) && s.start.None?
    ensures LatestWindow(Up(snap)).None?
    ensures LatestProducts(Up(snap)) == EmptyFrame
  {
    var r := LatestCompleted(snap.sessions);
    assert r.Some? && AtMost(s.start, r.value.start);
  }

  /**
   * A product row of the table is among the latest products exactly when its
   * timestamp lies in the window, both ends included; a row without a
   * timestamp never is.
   */
  lemma LatestWindowIsInclusive(store: Store, lo: int, hi: int, p: Product)
    requires LatestWindow(store) == Some((lo, hi)) && p in store.snapshot.products
    ensures p in LatestProducts(store).rows <==> p.processedAt.Some? && lo <= p.processedAt.value && p.processedAt.value <= hi
  {
    assert LatestProducts(store).rows == Filter(store.snapshot.products, Within(lo, hi));
    FilterMembership(store.snapshot.products, Within(lo, hi), p);
  }

  /** The `ON` condition of the history join: the product lies in the session's inclusive window. */
  predicate Joins(s: Session, p: Product) {
    s.start.Some? && s.end.Some? && InWindow(p, s.start.value, s.end.value)
  }

  /** A joined row the history counts: `stock_status = 'In Stock' AND category IS NOT NULL`. */
  predicate Counted(s: Session, p: Product) {
    Joins(s, p) && p.stockStatus == Some(InStockStatus) && p.category.Some?
  }

  /** The categories of the counted rows of one session, one entry per joined product row. */
  function SessionCategories(s: Session, ps: seq<Product>): seq<string> {
    if |ps| == 0 then []
    else (if Counted(s, ps[0]) then [ps[0].category.value] else []) + SessionCategories(s, ps[1..])
  }

  /**
   * The categories of every counted row whose session row is completed and
   * has this id: the rows that `GROUP BY ss.id, p.category` sees for one id.
   */
  function RowsOfId(ss: seq<Session>, ps: seq<Product>, id: int): seq<string> {
    if |ss| == 0 then []
    else (if IsCompleted(ss[0]) && ss[0].id == id then SessionCategories(ss[0], ps) else []) + RowsOfId(ss[1..], ps, id)
  }

  /**
   * The output row for one session row: its start, the `SUM(count)` of its
   * id's category groups and their `json_object_agg`.
   */
  function PointFor(s: Session, snap: Snapshot): HistoryPoint {
    var groups := GroupCategories(RowsOfId(snap.sessions, snap.products, s.id));
    HistoryPoint(s.start, SumCounts(groups), ToMap(groups))
  }

  /** What every history point carries: a positive total equal to the sum of its positive category counts. */
  ghost predicate WellFormedPoint(h: HistoryPoint) {
    && h.inStock >= 1
    && h.inStock == SumValues(h.categoryCounts)
    && forall c :: c in h.categoryCounts ==> h.categoryCounts[c] >= 1
  }

  /**
   * The final `SELECT` before ordering: one point per completed session row
   * whose id has an aggregate (the inner join drops the others).
   */
  function HistoryRows(ss: seq<Session>, snap: Snapshot): (r: seq<HistoryPoint>)
    ensures |r| <= |ss|
    ensures forall h :: h in r ==> WellFormedPoint(h)
  {
    if |ss| == 0 then []
    else
      var rows := RowsOfId(snap.sessions, snap.products, ss[0].id);
      var here := if IsCompleted(ss[0]) && |rows| > 0 then [PointFor(ss[0], snap)] else [];
      assert forall x :: x in here ==> WellFormedPoint(x) by {
        if |rows| > 0 {
          TallyOfCategories(rows);
        }
      }
      here + HistoryRows(ss[1..], snap)
  }

  /**
   * `get_stock_history`: the history points ordered by session start (NULLs
   * last), each with a positive in-stock total that is the sum of its
   * category counts; no points when the store fails.
   */
  function StockHistory(store: Store): (h: seq<HistoryPoint>)
    ensures store.Down? ==> h == []
    ensures store.Up? ==> |h| <= |store.snapshot.sessions|
    ensures SortedBy(h, EarlierDateFirst)
    ensures forall x :: x in h ==> WellFormedPoint(x)
  {
    match store
    case Down => []
    case Up(snap) =>
      EarlierDateFirstIsPreorder();
      var rows := HistoryRows(snap.sessions, snap);
      var sorted := SortBy(rows, EarlierDateFirst);
      assert forall x :: x in sorted ==> x in rows by {
        forall x | x in sorted ensures x in rows {
          assert x in multiset(sorted);
        }
      }
      sorted
  }

  // ---------------------------------------------------------------------
  // The history described session by session, from counts over the tables.

  function CountedFor(s: Session): Product -> bool {
    (p: Product) => Counted(s, p)
  }

  function CountedAs(s: Session, c: string): Product -> bool {
    (p: Product) => Counted(s, p) && p.category == Some(c)
  }

  function HasId(id: int): Session -> bool {
    (t: Session) => t.id == id
  }

  /** Each session id occurs in exactly one row, as a primary key guarantees. */
  ghost predicate UniqueIds(ss: seq<Session>) {
    forall s :: s in ss ==> Count(ss, HasId(s.id)) == 1
  }

  /** The categories of the in-stock products inside the session's window. */
  ghost function CategorySet(s: Session, ps: seq<Product>): set<string> {
    set p | p in ps && Counted(s, p) :: p.category.value
  }

  /**
   * The point a session should contribute: its start, the number of in-stock
   * categorised products in its window and, for each category present there,
   * how many of them carry it.
   */
  ghost function ExpectedPoint(s: Session, ps: seq<Product>): HistoryPoint {
    HistoryPoint(
      s.start,
      Count(ps, CountedFor(s)),
      map c | c in CategorySet(s, ps) :: Count(ps, CountedAs(s, c)))
  }

  /** One expected point per completed session with at least one counted product, in table order. */
  ghost function ExpectedHistory(ss: seq<Session>, ps: seq<Product>): seq<HistoryPoint> {
    if |ss| == 0 then []
    else
      (if IsCompleted(ss[0]) && Count(ps, CountedFor(ss[0])) > 0 then [ExpectedPoint(ss[0], ps)] else [])
      + ExpectedHistory(ss[1..], ps)
  }

  lemma {:induction false} SessionCategoriesLength(s: Session, ps: seq<Product>)
    ensures |SessionCategories(s, ps)| == Count(ps, CountedFor(s))
    decreases |ps|
  {
    if |ps| > 0 {
      SessionCategoriesLength(s, ps[1..]);
    }
  }

  lemma {:induction false} SessionCategoriesOccurrences(s: Session, ps: seq<Product>, c: string)
    ensures Occurrences(SessionCategories(s, ps), c) == Count(ps, CountedAs(s, c))
    decreases |ps|
  {
    if |ps| > 0 {
      var head := if Counted(s, ps[0]) then [ps[0].category.value] else [];
      var tail := SessionCategories(s, ps[1..]);
      assert SessionCategories(s, ps) == head + tail;
      CountAppend(head, tail, Is(c));
      SessionCategoriesOccurrences(s, ps[1..], c);
    }
  }

  lemma {:induction false} SessionCategoriesMembers(s: Session, ps: seq<Product>)
    ensures forall c :: c in SessionCategories(s, ps) <==> c in CategorySet(s, ps)
    decreases |ps|
  {
    if |ps| > 0 {
      SessionCategoriesMembers(s, ps[1..]);
      assert forall p :: p in ps <==> p == ps[0] || p in ps[1..];
      assert CategorySet(s, ps) ==
        (if Counted(s, ps[0]) then {ps[0].category.value} else {}) + CategorySet(s, ps[1..]);
    }
  }

  /** An id with no session row has no rows to aggregate. */
  lemma {:induction false} RowsOfAbsentId(ss: seq<Session>, ps: seq<Product>, id: int)
    requires Count(ss, HasId(id)) == 0
    ensures RowsOfId(ss, ps, id) == []
    decreases |ss|
  {
    if |ss| > 0 {
      RowsOfAbsentId(ss[1..], ps, id);
    }
  }

  /** With its id held by one row only, a session's aggregate is built from its own rows. */
  lemma {:induction false} RowsOfUniqueId(ss: seq<Session>, ps: seq<Product>, s: Session)
    requires s in ss && Count(ss, HasId(s.id)) == 1
    ensures RowsOfId(ss, ps, s.id) == if IsCompleted(s) then SessionCategories(s, ps) else []
    decreases |ss|
  {
    if ss[0] == s {
      RowsOfAbsentId(ss[1..], ps, s.id);
    } else if ss[0].id == s.id {
      CountPositive(ss[1..], HasId(s.id), s);
      assert false;
    } else {
      RowsOfUniqueId(ss[1..], ps, s);
    }
  }

  lemma GroupedKeys(s: Session, ps: seq<Product>)
    ensures ToMap(GroupCategories(SessionCategories(s, ps))).Keys == CategorySet(s, ps)
  {
    TallyOfCategories(SessionCategories(s, ps));
    SessionCategoriesMembers(s, ps);
  }

  lemma GroupedValue(s: Session, ps: seq<Product>, c: string)
    requires c in CategorySet(s, ps)
    ensures c in ToMap(GroupCategories(SessionCategories(s, ps)))
    ensures ToMap(GroupCategories(SessionCategories(s, ps)))[c] == Count(ps, CountedAs(s, c))
  {
    GroupedKeys(s, ps);
    SessionCategoriesMembers(s, ps);
    TallyOfCategories(SessionCategories(s, ps));
    SessionCategoriesOccurrences(s, ps, c);
  }

  /** Grouping a session's counted rows by category yields its expected category counts. */
  lemma GroupedCountsAreExpected(s: Session, ps: seq<Product>)
    ensures ToMap(GroupCategories(SessionCategories(s, ps))) == ExpectedPoint(s, ps).categoryCounts
  {
    var m := ToMap(GroupCategories(SessionCategories(s, ps)));
    var e := ExpectedPoint(s, ps).categoryCounts;
    assert m.Keys == e.Keys by {
      GroupedKeys(s, ps);
    }
    assert forall c :: c in e ==> m[c] == e[c] by {
      forall c | c in e
        ensures m[c] == e[c]
      {
        GroupedValue(s, ps, c);
      }
    }
    MapsAgree(m, e);
  }

  lemma MapsAgree(m: map<string, nat>, e: map<string, nat>)
    requires m.Keys == e.Keys
    requires forall c :: c in e ==> m[c] == e[c]
    ensures m == e
  {
  }

  /** The grouped, aggregated row of a session is exactly its expected point. */
  lemma PointForIsExpected(s: Session, snap: Snapshot)
    requires UniqueIds(snap.sessions) && s in snap.sessions && IsCompleted(s)
    ensures PointFor(s, snap) == ExpectedPoint(s, snap.products)
    ensures |RowsOfId(snap.sessions, snap.products, s.id)| == Count(snap.products, CountedFor(s))
  {
    var cs := SessionCategories(s, snap.products);
    RowsOfUniqueId(snap.sessions, snap.products, s);
    assert RowsOfId(snap.sessions, snap.products, s.id) == cs;
    TallyOfCategories(cs);
    SessionCategoriesLength(s, snap.products);
    GroupedCountsAreExpected(s, snap.products);
  }

  lemma {:induction false} HistoryRowsAreExpected(ss: seq<Session>, snap: Snapshot)
    requires UniqueIds(snap.sessions)
    requires forall s :: s in ss ==> s in snap.sessions
    ensures HistoryRows(ss, snap) == ExpectedHistory(ss, snap.products)
    decreases |ss|
  {
    if |ss| > 0 {
      if IsCompleted(ss[0]) {
        PointForIsExpected(ss[0], snap);
      }
      HistoryRowsAreExpected(ss[1..], snap);
    }
  }

  /** A point is only expected from a session with both bounds, so its date is present. */
  lemma {:induction false} ExpectedHistoryDated(ss: seq<Session>, ps: seq<Product>)
    ensures forall h :: h in ExpectedHistory(ss, ps) ==> h.date.Some?
    decreases |ss|
  {
    if |ss| > 0 {
      ExpectedHistoryDated(ss[1..], ps);
      if ss[0].start.None? {
        CountZero(ps, CountedFor(ss[0]));
      }
    }
  }

  /**
   * With unique session ids, the stock history is a reordering of the
   * expected points: one per completed session that has an in-stock,
   * categorised product in its inclusive window, counting exactly those
   * products; every point is dated.
   */
  lemma StockHistoryMatchesSessions(snap: Snapshot)
    requires UniqueIds(snap.sessions)
    ensures multiset(StockHistory(Up(snap))) == multiset(ExpectedHistory(snap.sessions, snap.products))
    ensures forall h :: h in StockHistory(Up(snap)) ==> h.date.Some?
  {
    HistoryRowsAreExpected(snap.sessions, snap);
    ExpectedHistoryDated(snap.sessions, snap.products);
    var h := StockHistory(Up(snap));
    forall x | x in h
      ensures x.date.Some?
    {
      assert x in multiset(h);
    }
  }

  /**
   * `get_latest_scraping_session`: the first session under `ORDER BY
   * session_start DESC` whatever its status, or None (the empty dict) when
   * the table is empty or the store fails.
   */
  function LatestScrapingSession(store: Store): (r: Option<Session>)
    ensures store.Down? ==> r.None?
    ensures store.Up? ==> (r.None? <==> |store.snapshot.sessions| == 0)
    ensures r.Some? ==>
      && store.Up? && r.value in store.snapshot.sessions
      && forall t :: t in store.snapshot.sessions ==> AtMost(t.start, r.value.start)
  {
    match store
    case Down => None
    case Up(snap) =>
      LaterStartFirstIsPreorder();
      var ordered := SortBy(snap.sessions, LaterStartFirst);
      if |ordered| == 0 then
        None
      else
        assert ordered[0] in multiset(snap.sessions);
        assert forall t :: t in snap.sessions ==> AtMost(t.start, ordered[0].start) by {
          forall t | t in snap.sessions ensures AtMost(t.start, ordered[0].start) {
            assert t in multiset(ordered);
            if t != ordered[0] {
              FirstOfSorted(ordered, LaterStartFirst, t);
            }
          }
        }
        Some(ordered[0])
  }
}
