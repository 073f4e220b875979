/** The public home page: the product queries behind its sections and the
    low-stock note on each product card. The deal banner's index is a
    `Carousel.Slider` over the loaded deals. */
module HomePage {
  import opened Wrappers
  import opened Js
  import opened DocumentStore
  import Helpers
  import ProductService

  /** The sections, in the order their queries are issued. */
  datatype Section =
    | TopHighlights | Deals | NewArrivals | LimitedStock
    | Premium | Standard | Basic | BottomHighlights
  {
    /** What the section asks `getProducts` for. */
    function Filters(): Record
    {
      match this
      case TopHighlights => map["isTopHighlight" := Bool(true), "published" := Bool(true), "limit" := Num(10)]
      case Deals => map["isDeal" := Bool(true), "published" := Bool(true), "limit" := Num(10)]
      case NewArrivals => map["isNewArrival" := Bool(true), "published" := Bool(true), "limit" := Num(10)]
      case LimitedStock => map["isLimitedStock" := Bool(true), "published" := Bool(true), "limit" := Num(10)]
      case Premium => map["category" := Str("Premium"), "published" := Bool(true), "limit" := Num(10)]
      case Standard => map["category" := Str("Standard"), "published" := Bool(true), "limit" := Num(10)]
      case Basic => map["category" := Str("Basic"), "published" := Bool(true), "limit" := Num(10)]
      case BottomHighlights => map["isBottomHighlight" := Bool(true), "published" := Bool(true), "limit" := Num(10)]
    }

    /** The category a tier section selects by. */
    function Tier(): Option<string>
    {
      match this
      case Premium => Some("Premium")
      case Standard => Some("Standard")
      case Basic => Some("Basic")
      case _ => None
    }
  }

  /** Every section's query is accepted and lists at most ten products. */
  lemma SectionQueryLimited(store: seq<Doc>, s: Section)
    ensures ProductService.GetProducts(store, s.Filters()).Success?
    ensures |ProductService.GetProducts(store, s.Filters()).value| <= 10
  {
    SectionFiltersLimit(s);
    TenLimited(store, s.Filters());
  }

  lemma SectionFiltersLimit(s: Section)
    ensures Get(s.Filters(), "limit") == Num(10)
    ensures ProductService.ValidFilters(s.Filters())
  {
    match s
    case TopHighlights =>
    case Deals =>
    case NewArrivals =>
    case LimitedStock =>
    case Premium =>
    case Standard =>
    case Basic =>
    case BottomHighlights =>
  }

  /** A query limited to ten lists at most ten products. */
  lemma TenLimited(store: seq<Doc>, f: Record)
    requires ProductService.ValidFilters(f) && Get(f, "limit") == Num(10)
    ensures ProductService.GetProducts(store, f).Success?
    ensures |ProductService.GetProducts(store, f).value| <= 10
  {
    var cs := ProductService.Constraints(f);
    ProductService.ConstraintsShape(f);
    ProductService.ConstraintsMembers(f, Limit(Num(10)));
    ProductService.FirstLimitIs(cs, Limit(Num(10)));
    ProductService.ConstraintsValid(f);
  }

  /** Every product a section lists is published; a tier section's
      products list the tier among their categories. */
  lemma SectionQuerySound(store: seq<Doc>, s: Section, i: int)
    requires ProductService.GetProducts(store, s.Filters()).Success?
    requires 0 <= i < |ProductService.GetProducts(store, s.Filters()).value|
    ensures var p := ProductService.GetProducts(store, s.Filters()).value[i];
      && Get(p, "published") == Bool(true)
      && (s.Tier().Some? ==> Get(p, "category").Arr? && Str(s.Tier().value) in Get(p, "category").elems)
  {
    var f := s.Filters();
    assert Get(f, "published") == Bool(true);
    if s.Tier().Some? {
      assert Get(f, "category") == Str(s.Tier().value);
    }
    ListedMatch(store, f, i);
  }

  /** A listed product carries the published value and the category the
      filters ask for. */
  lemma ListedMatch(store: seq<Doc>, f: Record, i: int)
    requires ProductService.GetProducts(store, f).Success?
    requires 0 <= i < |ProductService.GetProducts(store, f).value|
    ensures var p := ProductService.GetProducts(store, f).value[i];
      && (Get(f, "published") != Undefined ==> Get(p, "published") == Get(f, "published"))
      && (Truthy(Get(f, "category")) ==> Get(p, "category").Arr? && Get(f, "category") in Get(p, "category").elems)
  {
    ProductService.GetProductsSound(store, f, i);
    var d :| d in store && ProductService.GetProducts(store, f).value[i] == Snapshot(d) && ProductService.Selected(f, d.data);
    var p := Snapshot(d);
    if Get(f, "published") != Undefined {
      assert Get(p, "published") == Get(d.data, "published");
    }
    if Truthy(Get(f, "category")) {
      assert Get(p, "category") == Get(d.data, "category");
    }
  }

  /** The card's "Only N left" note: `stockCount <= 3 && stockCount > 0`. */
  predicate ShowsOnlyLeft(stockCount: Value)
  {
    AtMost(stockCount, 3) && Above(stockCount, 0)
  }

  /** The note shows exactly for a stock of 1, 2 or 3, whatever the
      limited-stock flag says; every product showing it is Limited Stock by
      the stock-status rule, while a flagged product with more stock is
      Limited Stock without the note. */
  lemma OnlyLeftSpec(stockCount: Value, flag: Value)
    ensures ShowsOnlyLeft(stockCount) <==> Numeric(stockCount).Some? && 1 <= Numeric(stockCount).value <= 3
    ensures ShowsOnlyLeft(stockCount) ==> Helpers.GetStockStatus(stockCount, flag) == Helpers.LimitedStock
    ensures !ShowsOnlyLeft(Num(10)) && Helpers.GetStockStatus(Num(10), Bool(true)) == Helpers.LimitedStock
  {
  }
}
