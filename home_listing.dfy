/** The older listing page: a free-text search over a product's joined
    text, equality filters on category and brand, optional price bounds
    and a stock flag, and the category and brand option lists. */
module HomeListing {
  import opened Wrappers
  import opened Seqs
  import opened Text
  import opened Js

  /** The text `product.tags?.join(' ')` writes into a template: the
      joined tags for an array, "undefined" for a missing list. Any other
      value has no `join`; it is `None` here. */
  function TagsText(tags: Value): Option<string>
  {
    match tags
    case Arr(_) => Some(JoinElems(tags, 0, " "))
    case Undefined => Some("undefined")
    case Null => Some("undefined")
    case _ => None
  }

  /** `${title} ${brand} ${category} ${tags}`, before lower-casing. */
  function SearchableText(p: Record): Option<string>
  {
    match TagsText(Get(p, "tags"))
    case None => None
    case Some(tags) =>
      Some(ToStr(Get(p, "title")) + " " + ToStr(Get(p, "brand")) + " " + ToStr(Get(p, "category")) + " " + tags)
  }

  /** The search test: the lower-cased joined text contains the
      lower-cased term. */
  predicate SearchHit(term: string, p: Record)
  {
    SearchableText(p).Some? && Contains(Lower(SearchableText(p).value), Lower(term))
  }

  /** `p.price >= Number(bound)`. */
  predicate AtLeastValue(price: Value, bound: Value)
  {
    ToNumber(bound).Num? && AtLeast(price, ToNumber(bound).n)
  }

  /** `p.price <= Number(bound)`. */
  predicate AtMostValue(price: Value, bound: Value)
  {
    ToNumber(bound).Num? && AtMost(price, ToNumber(bound).n)
  }

  /** The lines of the filtering effect, in order: search, category,
      brand, minimum price, maximum price, stock. */
  function Steps(searchTerm: string, filters: Record): seq<Step<Record>>
  {
    [ Step(searchTerm != [], (p: Record) => SearchHit(searchTerm, p)),
      Step(Truthy(Get(filters, "category")), (p: Record) => StrictEquals(Get(p, "category"), Get(filters, "category"))),
      Step(Truthy(Get(filters, "brand")), (p: Record) => StrictEquals(Get(p, "brand"), Get(filters, "brand"))),
      Step(Truthy(Get(filters, "minPrice")), (p: Record) => AtLeastValue(Get(p, "price"), Get(filters, "minPrice"))),
      Step(Truthy(Get(filters, "maxPrice")), (p: Record) => AtMostValue(Get(p, "price"), Get(filters, "maxPrice"))),
      Step(!IsNullish(Get(filters, "inStock")), (p: Record) => StrictEquals(Get(p, "inStock"), Get(filters, "inStock"))) ]
  }

  function Listed(products: seq<Record>, searchTerm: string, filters: Record): seq<Record>
  {
    Pipeline(products, Steps(searchTerm, filters))
  }

  /** The filtering effect: `result` narrowed line by line. */
  method FilterListing(products: seq<Record>, searchTerm: string, filters: Record) returns (result: seq<Record>)
    ensures result == Listed(products, searchTerm, filters)
  {
    ghost var steps := Steps(searchTerm, filters);
    result := products;
    PipelineStart(products, steps);
    ghost var prev := result;
    if searchTerm != [] {
      result := Filter(result, (p: Record) => SearchHit(searchTerm, p));
    }
    PipelineStep(products, steps, 0, prev, (p: Record) => SearchHit(searchTerm, p), result);
    prev := result;
    if Truthy(Get(filters, "category")) {
      result := Filter(result, (p: Record) => StrictEquals(Get(p, "category"), Get(filters, "category")));
    }
    PipelineStep(products, steps, 1, prev, (p: Record) => StrictEquals(Get(p, "category"), Get(filters, "category")), result);
    prev := result;
    if Truthy(Get(filters, "brand")) {
      result := Filter(result, (p: Record) => StrictEquals(Get(p, "brand"), Get(filters, "brand")));
    }
    PipelineStep(products, steps, 2, prev, (p: Record) => StrictEquals(Get(p, "brand"), Get(filters, "brand")), result);
    result := FilterPriceAndStock(products, searchTerm, filters, result);
  }

  /** The price and stock lines of the filtering effect. */
  method FilterPriceAndStock(products: seq<Record>, searchTerm: string, filters: Record, r0: seq<Record>)
    returns (result: seq<Record>)
    requires r0 == Filter(products, Stage(Steps(searchTerm, filters), 3))
    ensures result == Listed(products, searchTerm, filters)
  {
    ghost var steps := Steps(searchTerm, filters);
    result := r0;
    if Truthy(Get(filters, "minPrice")) {
      result := Filter(result, (p: Record) => AtLeastValue(Get(p, "price"), Get(filters, "minPrice")));
    }
    PipelineStep(products, steps, 3, r0, (p: Record) => AtLeastValue(Get(p, "price"), Get(filters, "minPrice")), result);
    ghost var prev := result;
    if Truthy(Get(filters, "maxPrice")) {
      result := Filter(result, (p: Record) => AtMostValue(Get(p, "price"), Get(filters, "maxPrice")));
    }
    PipelineStep(products, steps, 4, prev, (p: Record) => AtMostValue(Get(p, "price"), Get(filters, "maxPrice")), result);
    prev := result;
    if !IsNullish(Get(filters, "inStock")) {
      result := Filter(result, (p: Record) => StrictEquals(Get(p, "inStock"), Get(filters, "inStock")));
    }
    PipelineStep(products, steps, 5, prev, (p: Record) => StrictEquals(Get(p, "inStock"), Get(filters, "inStock")), result);
  }

  /** A product is listed exactly when it was loaded and passes every line
      whose guard holds: category and brand by `===` when set, each price
      bound inclusively when set, and the stock flag by `===` whenever it
      is neither `null` nor `undefined`. */
  lemma {:induction false} ListedExact(products: seq<Record>, searchTerm: string, filters: Record, p: Record)
    ensures p in Listed(products, searchTerm, filters) <==>
      && p in products
      && (searchTerm != [] ==> SearchHit(searchTerm, p))
      && (Truthy(Get(filters, "category")) ==> StrictEquals(Get(p, "category"), Get(filters, "category")))
      && (Truthy(Get(filters, "brand")) ==> StrictEquals(Get(p, "brand"), Get(filters, "brand")))
      && (Truthy(Get(filters, "minPrice")) ==> AtLeastValue(Get(p, "price"), Get(filters, "minPrice")))
      && (Truthy(Get(filters, "maxPrice")) ==> AtMostValue(Get(p, "price"), Get(filters, "maxPrice")))
      && (!IsNullish(Get(filters, "inStock")) ==> StrictEquals(Get(p, "inStock"), Get(filters, "inStock")))
  {
    var steps := Steps(searchTerm, filters);
    PipelineMembership(products, steps, p);
    assert PassesFirst(steps, 1, p) <==> (searchTerm != [] ==> SearchHit(searchTerm, p));
    assert PassesFirst(steps, 2, p) <==>
      PassesFirst(steps, 1, p) && (Truthy(Get(filters, "category")) ==> StrictEquals(Get(p, "category"), Get(filters, "category")));
    assert PassesFirst(steps, 3, p) <==>
      PassesFirst(steps, 2, p) && (Truthy(Get(filters, "brand")) ==> StrictEquals(Get(p, "brand"), Get(filters, "brand")));
    assert PassesFirst(steps, 4, p) <==>
      PassesFirst(steps, 3, p) && (Truthy(Get(filters, "minPrice")) ==> AtLeastValue(Get(p, "price"), Get(filters, "minPrice")));
    assert PassesFirst(steps, 5, p) <==>
      PassesFirst(steps, 4, p) && (Truthy(Get(filters, "maxPrice")) ==> AtMostValue(Get(p, "price"), Get(filters, "maxPrice")));
  }

  /** The listing keeps the loaded order and is stable under re-filtering. */
  lemma ListedOrderAndIdempotence(products: seq<Record>, searchTerm: string, filters: Record)
    ensures IsSubsequence(Listed(products, searchTerm, filters), products)
    ensures Listed(Listed(products, searchTerm, filters), searchTerm, filters) == Listed(products, searchTerm, filters)
  {
    PipelineOrderAndIdempotence(products, Steps(searchTerm, filters));
  }

  /** The category test is string equality: a product whose category is a
      list never passes a category filter, even when the list holds the
      chosen category. */
  lemma CategoryIsEquality(p: Record, filters: Record)
    requires Get(p, "category").Arr? && Truthy(Get(filters, "category"))
    ensures !StrictEquals(Get(p, "category"), Get(filters, "category"))
  {
  }

  /** The category and brand options: the loaded products' values with
      repeats dropped, in order of first occurrence. */
  function CategoryOptions(products: seq<Record>): seq<Value>
  {
    Unique(Field(products, "category"))
  }

  function BrandOptions(products: seq<Record>): seq<Value>
  {
    Unique(Field(products, "brand"))
  }

  /** Each option list is drawn from the products in order, holds no two
      alike, and offers every product's value (or one alike to it). */
  lemma OptionsSpec(products: seq<Record>, i: int)
    requires 0 <= i < |products|
    ensures IsSubsequence(CategoryOptions(products), Field(products, "category"))
    ensures PairwiseDistinct(CategoryOptions(products), SameValueZero)
    ensures var v := Get(products[i], "category");
      v in CategoryOptions(products) || SeenBefore(v, CategoryOptions(products), SameValueZero)
    ensures IsSubsequence(BrandOptions(products), Field(products, "brand"))
    ensures PairwiseDistinct(BrandOptions(products), SameValueZero)
    ensures var v := Get(products[i], "brand");
      v in BrandOptions(products) || SeenBefore(v, BrandOptions(products), SameValueZero)
  {
    UniqueProperties(Field(products, "category"), i);
    UniqueProperties(Field(products, "brand"), i);
  }
}
