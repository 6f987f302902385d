/**
 * The rows the dashboard reads from its PostgreSQL store and the records it
 * derives from them. Nullable columns are `Option`s; timestamps are integers
 * (instants on one clock); prices are reals.
 */
module Records {

  datatype Option<+T> = None | Some(value: T)

  /** One row of the products table: one scrape of one product. */
  datatype Product = Product(
    title: string,
    url: Option<string>,
    category: Option<string>,
    stockStatus: Option<string>,
    price: Option<real>,
    variantCount: Option<int>,
    imageCount: Option<int>,
    processedAt: Option<int>)

  /** One row of the scraping_sessions table. */
  datatype Session = Session(
    id: int,
    status: Option<string>,
    start: Option<int>,
    end: Option<int>,
    productsScraped: Option<int>,
    productsProcessed: Option<int>,
    errorMessage: Option<string>)

  /** The contents of both tables at the moment a refresh runs. */
  datatype Snapshot = Snapshot(sessions: seq<Session>, products: seq<Product>)

  /** The store as a query sees it: reachable, or failing every query. */
  datatype Store = Up(snapshot: Snapshot) | Down

  /** A pandas frame: the column labels it carries and its rows. */
  datatype Frame = Frame(columns: set<string>, rows: seq<Product>)

  /** One record of the stock history: a session start, its in-stock total and its per-category counts. */
  datatype HistoryPoint = HistoryPoint(date: Option<int>, inStock: nat, categoryCounts: map<string, nat>)

  /**
   * The columns of the products table, as `SELECT p.*` returns them. The
   * `id` key is among them; `Product` leaves it out, as nothing here reads it.
   */
  const ProductColumns: set<string> :=
    {"id", "title", "url", "category", "stock_status", "price", "variant_count", "image_count", "processing_timestamp"}

  /** `pd.DataFrame()`: no columns and no rows. */
  const EmptyFrame := Frame({}, [])

  /** pandas' `df.empty`: true when the frame has no rows or no columns. */
  predicate IsEmpty(f: Frame) {
    |f.rows| == 0 || |f.columns| == 0
  }
}
