/** The public catalog page: the filter sidebar's criteria, the pipeline
    that narrows the loaded products by them, the checkbox toggles, the
    reset, and when the "Clear All" button shows. */
module ProductsPage {
  import opened Wrappers
  import opened Seqs
  import opened Js
  import opened Constants

  /** The sidebar state. */
  datatype Criteria = Criteria(
    brands: seq<string>,
    categories: seq<string>,
    conditions: seq<string>,
    minPrice: int,
    maxPrice: Bound,
    newOnly: bool,
    limitedOnly: bool,
    dealsOnly: bool)

  /** The state the page starts in and `clearFilters` restores. */
  const INITIAL := Criteria([], [], [], 0, Infinity, false, false, false)

  // ------------------------------------------------------ the tests

  /** `selected.includes(v)` for a list of selected strings. */
  predicate Selects(selected: seq<string>, v: Value)
  {
    v.Str? && v.s in selected
  }

  /** `p.category && selected.some(cat => p.category.includes(cat))`. */
  predicate SharesCategory(selected: seq<string>, p: Record)
  {
    Truthy(Get(p, "category"))
    && exists k :: 0 <= k < |selected| && Includes(Get(p, "category"), Str(selected[k]))
  }

  /** `p.price >= min && p.price <= max`, where `max` may be `Infinity`. */
  predicate InPriceRange(c: Criteria, p: Record)
  {
    var price := Get(p, "price");
    AtLeast(price, c.minPrice)
    && match c.maxPrice
       case Infinity => Numeric(price).Some?
       case Finite(m) => AtMost(price, m)
  }

  /** The lines of `applyFilters()`, in order: brand, category,
      condition, price (always on), new, limited, deal. */
  function Steps(c: Criteria): seq<Step<Record>>
  {
    [ Step(|c.brands| > 0, (p: Record) => Selects(c.brands, Get(p, "brand"))),
      Step(|c.categories| > 0, (p: Record) => SharesCategory(c.categories, p)),
      Step(|c.conditions| > 0, (p: Record) => Selects(c.conditions, Get(p, "condition"))),
      Step(true, (p: Record) => InPriceRange(c, p)),
      Step(c.newOnly, (p: Record) => Truthy(Get(p, "isNewArrival"))),
      Step(c.limitedOnly, (p: Record) => Truthy(Get(p, "isLimitedStock"))),
      Step(c.dealsOnly, (p: Record) => Truthy(Get(p, "isDeal"))) ]
  }

  /** The products the page lists for criteria `c`. */
  function Filtered(products: seq<Record>, c: Criteria): seq<Record>
  {
    Pipeline(products, Steps(c))
  }

  /** `applyFilters()`: a copy of the loaded list narrowed step by step. */
  method ApplyFilters(products: seq<Record>, c: Criteria) returns (filtered: seq<Record>)
    ensures filtered == Filtered(products, c)
  {
    ghost var steps := Steps(c);
    filtered := products;
    PipelineStart(products, steps);
    ghost var prev := filtered;
    if |c.brands| > 0 {
      filtered := Filter(filtered, (p: Record) => Selects(c.brands, Get(p, "brand")));
    }
    PipelineStep(products, steps, 0, prev, (p: Record) => Selects(c.brands, Get(p, "brand")), filtered);
    prev := filtered;
    if |c.categories| > 0 {
      filtered := Filter(filtered, (p: Record) => SharesCategory(c.categories, p));
    }
    PipelineStep(products, steps, 1, prev, (p: Record) => SharesCategory(c.categories, p), filtered);
    prev := filtered;
    if |c.conditions| > 0 {
      filtered := Filter(filtered, (p: Record) => Selects(c.conditions, Get(p, "condition")));
    }
    PipelineStep(products, steps, 2, prev, (p: Record) => Selects(c.conditions, Get(p, "condition")), filtered);
    prev := filtered;
    filtered := Filter(filtered, (p: Record) => InPriceRange(c, p));
    PipelineStep(products, steps, 3, prev, (p: Record) => InPriceRange(c, p), filtered);
    filtered := ApplyFlags(products, c, filtered);
  }

  /** The three flag lines of `applyFilters()`. */
  method ApplyFlags(products: seq<Record>, c: Criteria, f0: seq<Record>) returns (filtered: seq<Record>)
    requires f0 == Filter(products, Stage(Steps(c), 4))
    ensures filtered == Filtered(products, c)
  {
    ghost var steps := Steps(c);
    filtered := f0;
    if c.newOnly {
      filtered := Filter(filtered, (p: Record) => Truthy(Get(p, "isNewArrival")));
    }
    PipelineStep(products, steps, 4, f0, (p: Record) => Truthy(Get(p, "isNewArrival")), filtered);
    ghost var prev := filtered;
    if c.limitedOnly {
      filtered := Filter(filtered, (p: Record) => Truthy(Get(p, "isLimitedStock")));
    }
    PipelineStep(products, steps, 5, prev, (p: Record) => Truthy(Get(p, "isLimitedStock")), filtered);
    prev := filtered;
    if c.dealsOnly {
      filtered := Filter(filtered, (p: Record) => Truthy(Get(p, "isDeal")));
    }
    PipelineStep(products, steps, 6, prev, (p: Record) => Truthy(Get(p, "isDeal")), filtered);
  }

  /** A product is listed exactly when it was loaded and passes every
      criterion: an empty selection imposes nothing, a non-empty brand or
      condition selection must contain the product's value, a non-empty
      category selection must share an element with its categories, the
      price bounds always apply, and a flag restricts only when on. */
  lemma {:induction false} FilteredExact(products: seq<Record>, c: Criteria, p: Record)
    ensures p in Filtered(products, c) <==>
      && p in products
      && (|c.brands| > 0 ==> Selects(c.brands, Get(p, "brand")))
      && (|c.categories| > 0 ==> SharesCategory(c.categories, p))
      && (|c.conditions| > 0 ==> Selects(c.conditions, Get(p, "condition")))
      && InPriceRange(c, p)
      && (c.newOnly ==> Truthy(Get(p, "isNewArrival")))
      && (c.limitedOnly ==> Truthy(Get(p, "isLimitedStock")))
      && (c.dealsOnly ==> Truthy(Get(p, "isDeal")))
  {
    var steps := Steps(c);
    PipelineMembership(products, steps, p);
    assert PassesFirst(steps, 1, p) <==> (|c.brands| > 0 ==> Selects(c.brands, Get(p, "brand")));
    assert PassesFirst(steps, 2, p) <==> PassesFirst(steps, 1, p) && (|c.categories| > 0 ==> SharesCategory(c.categories, p));
    assert PassesFirst(steps, 3, p) <==> PassesFirst(steps, 2, p) && (|c.conditions| > 0 ==> Selects(c.conditions, Get(p, "condition")));
    assert PassesFirst(steps, 4, p) <==> PassesFirst(steps, 3, p) && InPriceRange(c, p);
    assert PassesFirst(steps, 5, p) <==> PassesFirst(steps, 4, p) && (c.newOnly ==> Truthy(Get(p, "isNewArrival")));
    assert PassesFirst(steps, 6, p) <==> PassesFirst(steps, 5, p) && (c.limitedOnly ==> Truthy(Get(p, "isLimitedStock")));
    assert PassesFirst(steps, 7, p) <==> PassesFirst(steps, 6, p) && (c.dealsOnly ==> Truthy(Get(p, "isDeal")));
  }

  /** The listing keeps the loaded order, and filtering it again with the
      same criteria changes nothing. */
  lemma FilteredOrderAndIdempotence(products: seq<Record>, c: Criteria)
    ensures IsSubsequence(Filtered(products, c), products)
    ensures Filtered(Filtered(products, c), c) == Filtered(products, c)
  {
    PipelineOrderAndIdempotence(products, Steps(c));
  }

  /** The category test is a union: a product matches a combined selection
      exactly when it matches one of the parts. */
  lemma CategoryIsUnion(a: seq<string>, b: seq<string>, p: Record)
    ensures SharesCategory(a + b, p) <==> SharesCategory(a, p) || SharesCategory(b, p)
  {
    if SharesCategory(a + b, p) {
      var k :| 0 <= k < |a + b| && Includes(Get(p, "category"), Str((a + b)[k]));
      if k < |a| {
        assert (a + b)[k] == a[k];
      } else {
        assert (a + b)[k] == b[k - |a|];
      }
    }
    if SharesCategory(a, p) {
      var k :| 0 <= k < |a| && Includes(Get(p, "category"), Str(a[k]));
      assert (a + b)[k] == a[k];
    }
    if SharesCategory(b, p) {
      var k :| 0 <= k < |b| && Includes(Get(p, "category"), Str(b[k]));
      assert (a + b)[|a| + k] == b[k];
    }
  }

  /** After a reset the only test left is the price floor: products with
      a price of at least 0 are listed, products with a negative or
      non-numeric price are not. */
  lemma {:induction false} ClearedListing(products: seq<Record>, p: Record)
    ensures p in Filtered(products, ClearFilters()) <==> p in products && AtLeast(Get(p, "price"), 0)
  {
    FilteredExact(products, ClearFilters(), p);
  }

  // ------------------------------------------------------ the state changes

  /** `toggleBrand(b)`. */
  function ToggleBrand(c: Criteria, brand: string): (r: Criteria)
    ensures r == c.(brands := r.brands)
    ensures brand in r.brands <==> brand !in c.brands
    ensures forall y :: y != brand ==> (y in r.brands <==> y in c.brands)
  {
    ToggleMembershipAll(c.brands, brand);
    c.(brands := Toggle(c.brands, brand))
  }

  /** `toggleCategory(x)`. */
  function ToggleCategory(c: Criteria, category: string): (r: Criteria)
    ensures r == c.(categories := r.categories)
    ensures category in r.categories <==> category !in c.categories
    ensures forall y :: y != category ==> (y in r.categories <==> y in c.categories)
  {
    ToggleMembershipAll(c.categories, category);
    c.(categories := Toggle(c.categories, category))
  }

  /** `toggleCondition(x)`. */
  function ToggleCondition(c: Criteria, condition: string): (r: Criteria)
    ensures r == c.(conditions := r.conditions)
    ensures condition in r.conditions <==> condition !in c.conditions
    ensures forall y :: y != condition ==> (y in r.conditions <==> y in c.conditions)
  {
    ToggleMembershipAll(c.conditions, condition);
    c.(conditions := Toggle(c.conditions, condition))
  }

  /** A toggle adds an absent value at the end and removes every copy of a
      present one; toggling twice restores the selection's membership, and
      the selection itself when the value was absent. */
  lemma ToggleBrandSpec(c: Criteria, brand: string, other: string)
    ensures brand !in c.brands ==> ToggleBrand(c, brand).brands == c.brands + [brand]
    ensures brand in c.brands ==> brand !in ToggleBrand(c, brand).brands
    ensures other != brand ==> (other in ToggleBrand(c, brand).brands <==> other in c.brands)
    ensures other in ToggleBrand(ToggleBrand(c, brand), brand).brands <==> other in c.brands
    ensures brand !in c.brands ==> ToggleBrand(ToggleBrand(c, brand), brand) == c
  {
    ToggleMembership(c.brands, brand, other);
    ToggleTwice(c.brands, brand, other);
  }

  lemma ToggleCategorySpec(c: Criteria, category: string, other: string)
    ensures category !in c.categories ==> ToggleCategory(c, category).categories == c.categories + [category]
    ensures category in c.categories ==> category !in ToggleCategory(c, category).categories
    ensures other != category ==> (other in ToggleCategory(c, category).categories <==> other in c.categories)
    ensures other in ToggleCategory(ToggleCategory(c, category), category).categories <==> other in c.categories
    ensures category !in c.categories ==> ToggleCategory(ToggleCategory(c, category), category) == c
  {
    ToggleMembership(c.categories, category, other);
    ToggleTwice(c.categories, category, other);
  }

  lemma ToggleConditionSpec(c: Criteria, condition: string, other: string)
    ensures condition !in c.conditions ==> ToggleCondition(c, condition).conditions == c.conditions + [condition]
    ensures condition in c.conditions ==> condition !in ToggleCondition(c, condition).conditions
    ensures other != condition ==> (other in ToggleCondition(c, condition).conditions <==> other in c.conditions)
    ensures other in ToggleCondition(ToggleCondition(c, condition), condition).conditions <==> other in c.conditions
    ensures condition !in c.conditions ==> ToggleCondition(ToggleCondition(c, condition), condition) == c
  {
    ToggleMembership(c.conditions, condition, other);
    ToggleTwice(c.conditions, condition, other);
  }

  /** `clearFilters()`: every criterion back to its starting value. */
  function ClearFilters(): (r: Criteria)
    ensures r.brands == [] && r.categories == [] && r.conditions == []
    ensures r.minPrice == 0 && r.maxPrice == Infinity
    ensures !r.newOnly && !r.limitedOnly && !r.dealsOnly
  {
    INITIAL
  }

  /** Whether the "Clear All" button shows: some selection is non-empty
      or some flag is on. So it shows exactly when the criteria differ from
      the starting ones in something other than the price range, and a
      price range alone does not show it. */
  predicate ShowClearAll(c: Criteria): (r: bool)
    ensures r <==> c.(minPrice := 0, maxPrice := Infinity) != ClearFilters()
  {
    assert !(|c.brands| > 0 || |c.categories| > 0 || |c.conditions| > 0) ==> c.brands == [] && c.categories == [] && c.conditions == [];
    |c.brands| > 0 || |c.categories| > 0 || |c.conditions| > 0 || c.newOnly || c.limitedOnly || c.dealsOnly
  }

  /** The filters `fetchProducts(filter)` asks the service for: published
      products, narrowed by the `filter` URL parameter to one flag. */
  function FetchFilters(filterParam: Option<string>): (r: Record)
    ensures "published" in r && r["published"] == Bool(true)
    ensures filterParam == Some("new") <==> "isNewArrival" in r
    ensures filterParam == Some("limited") <==> "isLimitedStock" in r
    ensures filterParam == Some("deals") <==> "isDeal" in r
    ensures forall k :: k in r ==> r[k] == Bool(true)
    ensures |r.Keys| <= 2
  {
    var filters := map["published" := Bool(true)];
    if filterParam == Some("new") then filters["isNewArrival" := Bool(true)]
    else if filterParam == Some("limited") then filters["isLimitedStock" := Bool(true)]
    else if filterParam == Some("deals") then filters["isDeal" := Bool(true)]
    else filters
  }
}
