/**
 * The data side of the dashboard's charts, table and cards (app.py): what
 * each renderer extracts from the frame, the history or the session record
 * before it is drawn.
 */
module Dashboard {
  import opened Records
  import opened Text
  import opened Collections
  import opened Tally
  import opened Database

  // ---------------------------------------------------------------------
  // Stock level over time (`create_stock_history_chart`).

  datatype StockChart = NoStockData | StockSeries(dates: seq<Option<int>>, inStock: seq<nat>)

  /** The history's dates and in-stock totals, point by point; "no data" for an empty history. */
  function StockLevelChart(history: seq<HistoryPoint>): (c: StockChart)
    ensures c.NoStockData? <==> |history| == 0
    ensures c.StockSeries? ==> |c.dates| == |history| && |c.inStock| == |history|
    ensures c.StockSeries? ==>
      forall i :: 0 <= i < |history| ==> c.dates[i] == history[i].date && c.inStock[i] == history[i].inStock
  {
    if |history| == 0 then NoStockData
    else
      StockSeries(
        seq(|history|, i requires 0 <= i < |history| => history[i].date),
        seq(|history|, i requires 0 <= i < |history| => history[i].inStock))
  }

  // ---------------------------------------------------------------------
  // Stock by category over time (`create_category_stock_history_chart`).

  /** One category's series: its count in every history point, in history order. */
  datatype Line = Line(category: string, values: seq<nat>)

  datatype CategoryChart = NoCategoryData | CategorySeries(dates: seq<Option<int>>, lines: seq<Line>)

  /** `any(h['category_counts'] for h in history)`: some point has a non-empty mapping. */
  predicate HasCategoryData(history: seq<HistoryPoint>) {
    exists i :: 0 <= i < |history| && |history[i].categoryCounts| > 0
  }

  /** The union of the category keys over the whole history. */
  ghost function AllCategories(history: seq<HistoryPoint>): set<string> {
    set i, c | 0 <= i < |history| && c in history[i].categoryCounts :: c
  }

  function LineCategories(lines: seq<Line>): (cs: seq<string>)
    ensures |cs| == |lines| && forall j :: 0 <= j < |lines| ==> cs[j] == lines[j].category
  {
    seq(|lines|, j requires 0 <= j < |lines| => lines[j].category)
  }

  /**
   * `chart` is the category pivot of `history`: the history's dates; one line
   * per category of the sorted union of keys; each line one value per point,
   * the point's count for that category or 0 when it has none.
   */
  ghost predicate IsPivotOf(chart: CategoryChart, history: seq<HistoryPoint>) {
    && chart.CategorySeries?
    && |chart.dates| == |history|
    && (forall i :: 0 <= i < |history| ==> chart.dates[i] == history[i].date)
    && StrictlyIncreasing(LineCategories(chart.lines))
    && (forall c :: c in LineCategories(chart.lines) <==> c in AllCategories(history))
    && forall j :: 0 <= j < |chart.lines| ==>
         && |chart.lines[j].values| == |history|
         && forall i :: 0 <= i < |history| ==>
              chart.lines[j].values[i] == Lookup(history[i].categoryCounts, chart.lines[j].category)
  }

  /** `sorted(all_cats)`: the categories in increasing order, each once. */
  method SortedCategories(cats: set<string>) returns (r: seq<string>)
    ensures StrictlyIncreasing(r)
    ensures forall c :: c in r <==> c in cats
  {
    r := [];
    var rest := cats;
    while rest != {}
      invariant StrictlyIncreasing(r)
      invariant forall c :: c in cats <==> c in r || c in rest
      invariant forall c :: c in r ==> c !in rest
      decreases |rest|
    {
      var x :| x in rest;
      r := InsertSorted(x, r);
      rest := rest - {x};
    }
  }

  /** The category pivot, or "no data" when no point has a category count. */
  method CategoryStockChart(history: seq<HistoryPoint>) returns (chart: CategoryChart)
    ensures chart.NoCategoryData? <==> !HasCategoryData(history)
    ensures chart.CategorySeries? ==> IsPivotOf(chart, history)
  {
    if |history| == 0 || !HasCategoryData(history) {
      return NoCategoryData;
    }
    var dates := seq(|history|, i requires 0 <= i < |history| => history[i].date);
    var cats: set<string> := {};
    for i := 0 to |history|
      invariant cats == set k, c | 0 <= k < i && c in history[k].categoryCounts :: c
    {
      if |history[i].categoryCounts| > 0 {
        cats := cats + history[i].categoryCounts.Keys;
      }
    }
    var names := SortedCategories(cats);
    var lines: seq<Line> := [];
    for j := 0 to |names|
      invariant |lines| == j
      invariant forall k :: 0 <= k < j ==> lines[k].category == names[k]
      invariant forall k :: 0 <= k < j ==>
        && |lines[k].values| == |history|
        && forall i :: 0 <= i < |history| ==> lines[k].values[i] == Lookup(history[i].categoryCounts, names[k])
    {
      var y: seq<nat> := [];
      for i := 0 to |history|
        invariant |y| == i
        invariant forall k :: 0 <= k < i ==> y[k] == Lookup(history[k].categoryCounts, names[j])
      {
        var counts := history[i].categoryCounts;
        if |counts| > 0 {
          y := y + [Lookup(counts, names[j])];
        } else {
          y := y + [0];
        }
      }
      lines := lines + [Line(names[j], y)];
    }
    chart := CategorySeries(dates, lines);
    assert LineCategories(lines) == names;
  }

  /** The pivot is determined by the history: two charts that are both its pivot are equal. */
  lemma PivotIsUnique(a: CategoryChart, b: CategoryChart, history: seq<HistoryPoint>)
    requires IsPivotOf(a, history) && IsPivotOf(b, history)
    ensures a == b
  {
    SortedListUnique(LineCategories(a.lines), LineCategories(b.lines));
    assert a.dates == b.dates;
    assert |a.lines| == |b.lines|;
    forall j | 0 <= j < |a.lines|
      ensures a.lines[j] == b.lines[j]
    {
      assert a.lines[j].category == b.lines[j].category by {
        assert LineCategories(a.lines)[j] == LineCategories(b.lines)[j];
      }
      assert a.lines[j].values == b.lines[j].values;
    }
  }

  /** The values the lines show at point `i`, added up: the height of the stacked category chart. */
  ghost function SumAt(lines: seq<Line>, i: nat): nat
    requires forall j :: 0 <= j < |lines| ==> i < |lines[j].values|
  {
    if |lines| == 0 then 0 else lines[0].values[i] + SumAt(lines[1..], i)
  }

  lemma {:induction false} SumAtIsSumLookups(lines: seq<Line>, i: nat, m: map<string, nat>)
    requires forall j :: 0 <= j < |lines| ==> i < |lines[j].values| && lines[j].values[i] == Lookup(m, lines[j].category)
    ensures SumAt(lines, i) == SumLookups(LineCategories(lines), m)
    decreases |lines|
  {
    if |lines| > 0 {
      SumAtIsSumLookups(lines[1..], i, m);
      assert LineCategories(lines)[1..] == LineCategories(lines[1..]);
    }
  }

  /**
   * At every point the category lines add up to the point's total when the
   * total is the sum of its category counts: the category chart stacks up
   * to the stock-level chart.
   */
  lemma PivotStacksToTotal(chart: CategoryChart, history: seq<HistoryPoint>, i: nat)
    requires IsPivotOf(chart, history)
    requires i < |history| && history[i].inStock == SumValues(history[i].categoryCounts)
    ensures SumAt(chart.lines, i) == history[i].inStock
  {
    var m := history[i].categoryCounts;
    var names := LineCategories(chart.lines);
    SumAtIsSumLookups(chart.lines, i, m);
    assert Distinct(names) by {
      forall a, b | 0 <= a < b < |names|
        ensures names[a] != names[b]
      {
        LessIrreflexive(names[a]);
      }
    }
    assert forall c :: c in m ==> c in names by {
      forall c | c in m
        ensures c in names
      {
        assert c in AllCategories(history);
      }
    }
    SumLookupsCovers(names, m);
  }

  /**
   * For the history the store produces, the category chart's lines add up,
   * point by point, to the stock-level chart.
   */
  lemma HistoryChartsAgree(store: Store, chart: CategoryChart, i: nat)
    requires IsPivotOf(chart, StockHistory(store)) && i < |StockHistory(store)|
    ensures StockLevelChart(StockHistory(store)).StockSeries?
    ensures SumAt(chart.lines, i) == StockLevelChart(StockHistory(store)).inStock[i]
  {
    var h := StockHistory(store);
    assert h[i] in h;
    PivotStacksToTotal(chart, h, i);
  }

  /**
   * For the history the store produces, the category chart shows "no data"
   * exactly when the history is empty: every point has a category count.
   */
  lemma CategoryChartEmptyIffNoHistory(store: Store)
    ensures !HasCategoryData(StockHistory(store)) <==> |StockHistory(store)| == 0
  {
    var h := StockHistory(store);
    if |h| > 0 {
      assert h[0] in h;
      assert |h[0].categoryCounts| > 0;
    }
  }

  // ---------------------------------------------------------------------
  // Top products by price (`create_top_products_table`).

  const TopLimit := 10
  const PriceColumn := "price"
  const Unknown := "Unknown"

  /**
   * Price `x` may precede price `y` under `sort_values('price',
   * ascending=False)`: higher prices first, missing prices last (pandas'
   * default `na_position`).
   */
  predicate PriceFirst(x: Option<real>, y: Option<real>) {
    y.None? || (x.Some? && x.value >= y.value)
  }

  predicate HigherPriceFirst(a: Product, b: Product) {
    PriceFirst(a.price, b.price)
  }

  lemma HigherPriceFirstIsPreorder()
    ensures TotalPreorder(HigherPriceFirst)
  {
  }

  /**
   * `.sort_values('price', ascending=False).head(10)`: at most ten rows of
   * the frame, highest price first, and no row left out ranks above a row
   * kept.
   */
  function TopByPrice(ps: seq<Product>): (top: seq<Product>)
    ensures |top| == Min(TopLimit, |ps|)
    ensures SortedBy(top, HigherPriceFirst)
    ensures multiset(top) <= multiset(ps)
    ensures forall p, q :: p in top && q in multiset(ps) - multiset(top) ==> HigherPriceFirst(p, q)
  {
    HigherPriceFirstIsPreorder();
    var sorted := SortBy(ps, HigherPriceFirst);
    var n := Min(TopLimit, |ps|);
    SortedSplit(sorted, HigherPriceFirst, n);
    assert multiset(ps) - multiset(sorted[..n]) == multiset(sorted[n..]);
    sorted[..n]
  }

  datatype TitleCell = Link(text: string, href: string) | Plain(text: string)

  datatype TableRow = TableRow(
    title: TitleCell,
    price: Option<real>,
    category: string,
    stockStatus: string,
    variants: int,
    images: int)

  datatype TopTable = NoDataMessage | NoPriceMessage | PriceTable(rows: seq<TableRow>)

  function ValueOr<T>(o: Option<T>, default: T): T {
    if o.Some? then o.value else default
  }

  /** One table row: the title linked when there is a URL; missing category or status read "Unknown", missing counts 0. */
  function ToRow(p: Product): TableRow {
    TableRow(
      if p.url.Some? then Link(p.title, p.url.value) else Plain(p.title),
      p.price,
      ValueOr(p.category, Unknown),
      ValueOr(p.stockStatus, Unknown),
      ValueOr(p.variantCount, 0),
      ValueOr(p.imageCount, 0))
  }

  /** `r` shows product `p`, each missing value replaced by its default. */
  ghost predicate Shows(r: TableRow, p: Product) {
    && r.title.text == p.title
    && (r.title.Link? <==> p.url.Some?)
    && (p.url.Some? ==> r.title.href == p.url.value)
    && r.price == p.price
    && (p.category.None? ==> r.category == Unknown) && (p.category.Some? ==> r.category == p.category.value)
    && (p.stockStatus.None? ==> r.stockStatus == Unknown) && (p.stockStatus.Some? ==> r.stockStatus == p.stockStatus.value)
    && (p.variantCount.None? ==> r.variants == 0) && (p.variantCount.Some? ==> r.variants == p.variantCount.value)
    && (p.imageCount.None? ==> r.images == 0) && (p.imageCount.Some? ==> r.images == p.imageCount.value)
  }

  /** Table rows ordered by the price they show, highest first and missing last. */
  predicate RowHigherPriceFirst(a: TableRow, b: TableRow) {
    PriceFirst(a.price, b.price)
  }

  /**
   * The top-products table: "No data available" for an empty frame, "Price
   * data not available" without a price column, otherwise `min(10, n)` rows
   * in price order showing the top products with their defaults.
   */
  function TopProductsTable(f: Frame): (t: TopTable)
    ensures t.NoDataMessage? <==> IsEmpty(f)
    ensures t.NoPriceMessage? <==> !IsEmpty(f) && PriceColumn !in f.columns
    ensures t.PriceTable? ==> |t.rows| == Min(TopLimit, |f.rows|) && SortedBy(t.rows, RowHigherPriceFirst)
    ensures t.PriceTable? ==> forall i :: 0 <= i < |t.rows| ==> Shows(t.rows[i], TopByPrice(f.rows)[i])
  {
    if IsEmpty(f) then NoDataMessage
    else if PriceColumn !in f.columns then NoPriceMessage
    else
      var top := TopByPrice(f.rows);
      PriceTable(seq(|top|, i requires 0 <= i < |top| => ToRow(top[i])))
  }

  // ---------------------------------------------------------------------
  // Database status card (`create_database_status_card`).

  datatype DatabaseCard = NoProductData | ProductCounts(total: nat, inStock: nat)

  /** `df['stock_status'] == 'In Stock'`: exact, case-sensitive; a missing status is not in stock. */
  predicate IsInStock(p: Product) {
    p.stockStatus == Some(InStockStatus)
  }

  /** The card's counts: every row, and the rows whose status is exactly "In Stock"; none for an empty frame. */
  function DatabaseStatusCard(f: Frame): (card: DatabaseCard)
    ensures card.NoProductData? <==> IsEmpty(f)
    ensures card.ProductCounts? ==> card.total == |f.rows| && card.inStock <= card.total
    ensures card.ProductCounts? ==> card.inStock == Count(f.rows, IsInStock)
  {
    if IsEmpty(f) then NoProductData else ProductCounts(|f.rows|, Count(f.rows, IsInStock))
  }

  /** The card reads the frame as a bag of rows: two frames with the same rows in any order show the same card. */
  lemma DatabaseCardIgnoresRowOrder(f: Frame, g: Frame)
    requires f.columns == g.columns && multiset(f.rows) == multiset(g.rows)
    ensures DatabaseStatusCard(f) == DatabaseStatusCard(g)
  {
    CountPermutation(f.rows, g.rows, IsInStock);
    assert |f.rows| == |multiset(f.rows)| == |g.rows|;
  }

  /**
   * For the latest products the card counts the products of the latest
   * window, and those of them that are in stock.
   */
  lemma DatabaseCardOfLatestProducts(store: Store)
    requires LatestWindow(store).Some?
    ensures
      var (lo, hi) := LatestWindow(store).value;
      var ps := store.snapshot.products;
      var card := DatabaseStatusCard(LatestProducts(store));
      && (card.NoProductData? <==> Count(ps, Within(lo, hi)) == 0)
      && (card.ProductCounts? ==>
            card.total == Count(ps, Within(lo, hi))
            && card.inStock == Count(ps, Both(Within(lo, hi), IsInStock)))
  {
    var (lo, hi) := LatestWindow(store).value;
    CountOfFilter(store.snapshot.products, Within(lo, hi), IsInStock);
  }

  // ---------------------------------------------------------------------
  // Scraping status card (`create_scraping_status_card`).

  /** A key of the session dict: missing, present with NULL, or present with a value. */
  datatype Field<T> = Absent | Null | Present(value: T)

  datatype Colour = Success | Primary | Danger | Secondary

  /** The colour lookup on a lowercased status; an unknown status is "secondary". */
  function ColourOf(key: string): Colour {
    if key == "completed" then Success
    else if key == "running" then Primary
    else if key == "failed" then Danger
    else Secondary
  }

  /**
   * `session.get('status', 'failed').lower()` looked up in the colour table:
   * a missing status reads "failed"; a NULL status makes `.lower()` raise,
   * which is None here.
   */
  function StatusColour(status: Field<string>): (c: Option<Colour>)
    ensures c.None? <==> status.Null?
    ensures c == Some(Success) <==> status.Present? && Lower(status.value) == "completed"
    ensures c == Some(Primary) <==> status.Present? && Lower(status.value) == "running"
    ensures c == Some(Danger) <==> status.Absent? || (status.Present? && Lower(status.value) == "failed")
    ensures c == Some(Secondary) <==>
      status.Present? && Lower(status.value) !in {"completed", "running", "failed"}
  {
    match status
    case Absent => Some(ColourOf(Lower("failed")))
    case Null => None
    case Present(s) => Some(ColourOf(Lower(s)))
  }

  /** The colour depends on the status only up to case. */
  lemma StatusColourIgnoresCase(a: string, b: string)
    requires Lower(a) == Lower(b)
    ensures StatusColour(Present(a)) == StatusColour(Present(b))
  {
  }

  datatype ScrapingCard =
    | NoSessionData
    | SessionCard(colour: Colour, errorFooter: Option<string>)
    | CardFailure

  /**
   * The scraping card for the latest session record. The record carries every
   * column, so its status key is always present: NULL makes `.lower()` fail,
   * and so does a NULL start under a set end, which the duration subtracts.
   * The footer shows the error message when it is non-empty.
   */
  function ScrapingStatusCard(latest: Option<Session>): (card: ScrapingCard)
    ensures card.NoSessionData? <==> latest.None?
    ensures card.CardFailure? <==>
      latest.Some? && (latest.value.status.None? || (latest.value.end.Some? && latest.value.start.None?))
    ensures card.SessionCard? ==>
      && card.colour == StatusColour(Present(latest.value.status.value)).value
      && (card.errorFooter.Some? <==> latest.value.errorMessage.Some? && |latest.value.errorMessage.value| > 0)
      && (card.errorFooter.Some? ==> card.errorFooter == latest.value.errorMessage)
  {
    match latest
    case None => NoSessionData
    case Some(s) =>
      var field := if s.status.Some? then Present(s.status.value) else Null;
      match StatusColour(field)
      case None => CardFailure
      case Some(colour) =>
        if s.end.Some? && s.start.None? then CardFailure
        else
          var footer := if s.errorMessage.Some? && |s.errorMessage.value| > 0 then s.errorMessage else None;
          SessionCard(colour, footer)
  }

  /** A latest session that the resolver would count as completed, with a start, shows the "success" colour. */
  lemma CompletedSessionShowsSuccess(s: Session)
    requires IsCompleted(s) && s.start.Some?
    ensures ScrapingStatusCard(Some(s)) == SessionCard(Success, ScrapingStatusCard(Some(s)).errorFooter)
  {
  }
}
