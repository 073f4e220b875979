/** The admin product list: search over title, brand and model, a brand
    selector and a published selector, plus the brand option list. */
module ProductsManagementPage {
  import opened Seqs
  import opened Text
  import opened Js

  /** `p.title?.toLowerCase().includes(term) || p.brand?… || p.model?…`. */
  predicate SearchHit(term: string, p: Record)
  {
    LowerIncludes(Get(p, "title"), Lower(term))
    || LowerIncludes(Get(p, "brand"), Lower(term))
    || LowerIncludes(Get(p, "model"), Lower(term))
  }

  /** The published selector's test: `p.published === (filter === 'published')`. */
  predicate PublishedAs(publishedFilter: string, p: Record)
  {
    Get(p, "published") == Bool(publishedFilter == "published")
  }

  function Steps(searchTerm: string, brandFilter: string, publishedFilter: string): seq<Step<Record>>
  {
    [ Step(searchTerm != [], (p: Record) => SearchHit(searchTerm, p)),
      Step(brandFilter != "all", (p: Record) => Get(p, "brand") == Str(brandFilter)),
      Step(publishedFilter != "all", (p: Record) => PublishedAs(publishedFilter, p)) ]
  }

  function Shown(products: seq<Record>, searchTerm: string, brandFilter: string, publishedFilter: string): seq<Record>
  {
    Pipeline(products, Steps(searchTerm, brandFilter, publishedFilter))
  }

  /** `filterProducts()`. */
  method FilterProducts(products: seq<Record>, searchTerm: string, brandFilter: string, publishedFilter: string)
    returns (filtered: seq<Record>)
    ensures filtered == Shown(products, searchTerm, brandFilter, publishedFilter)
  {
    ghost var steps := Steps(searchTerm, brandFilter, publishedFilter);
    filtered := products;
    PipelineStart(products, steps);
    ghost var prev := filtered;
    if searchTerm != [] {
      filtered := Filter(filtered, (p: Record) => SearchHit(searchTerm, p));
    }
    PipelineStep(products, steps, 0, prev, (p: Record) => SearchHit(searchTerm, p), filtered);
    prev := filtered;
    if brandFilter != "all" {
      filtered := Filter(filtered, (p: Record) => Get(p, "brand") == Str(brandFilter));
    }
    PipelineStep(products, steps, 1, prev, (p: Record) => Get(p, "brand") == Str(brandFilter), filtered);
    prev := filtered;
    if publishedFilter != "all" {
      filtered := Filter(filtered, (p: Record) => PublishedAs(publishedFilter, p));
    }
    PipelineStep(products, steps, 2, prev, (p: Record) => PublishedAs(publishedFilter, p), filtered);
  }

  /** A product is shown exactly when it matches the search (when there is
      one), has the chosen brand (unless "all"), and has the chosen
      published state (unless "all"); the list keeps the loaded order. */
  lemma {:induction false} ShownExact(products: seq<Record>, searchTerm: string, brandFilter: string, publishedFilter: string, p: Record)
    ensures p in Shown(products, searchTerm, brandFilter, publishedFilter) <==>
      && p in products
      && (searchTerm != [] ==> SearchHit(searchTerm, p))
      && (brandFilter != "all" ==> Get(p, "brand") == Str(brandFilter))
      && (publishedFilter != "all" ==> Get(p, "published") == Bool(publishedFilter == "published"))
    ensures IsSubsequence(Shown(products, searchTerm, brandFilter, publishedFilter), products)
  {
    var steps := Steps(searchTerm, brandFilter, publishedFilter);
    PipelineMembership(products, steps, p);
    PipelineOrderAndIdempotence(products, steps);
    assert PassesFirst(steps, 1, p) <==> (searchTerm != [] ==> SearchHit(searchTerm, p));
  }

  /** A product without a `published` field is listed under neither
      "published" nor "unpublished". */
  lemma UnsetPublishedHidden(products: seq<Record>, p: Record)
    requires "published" !in p
    ensures p !in Shown(products, "", "all", "published")
    ensures p !in Shown(products, "", "all", "unpublished")
  {
    ShownExact(products, "", "all", "published", p);
    ShownExact(products, "", "all", "unpublished", p);
  }

  /** The brand options: `[...new Set(products.map(p => p.brand))].filter(Boolean)`. */
  function BrandOptions(products: seq<Record>): seq<Value>
  {
    Filter(Unique(Field(products, "brand")), Truthy)
  }

  /** The brand options are truthy, drawn from the products' brands in
      order of first occurrence with repeats dropped, and include every
      truthy brand. */
  lemma BrandOptionsSpec(products: seq<Record>, i: int)
    requires 0 <= i < |products|
    ensures forall k :: 0 <= k < |BrandOptions(products)| ==> Truthy(BrandOptions(products)[k])
    ensures IsSubsequence(BrandOptions(products), Unique(Field(products, "brand")))
    ensures IsSubsequence(Unique(Field(products, "brand")), Field(products, "brand"))
    ensures PairwiseDistinct(Unique(Field(products, "brand")), SameValueZero)
    ensures Truthy(Get(products[i], "brand")) ==> Get(products[i], "brand") in BrandOptions(products)
  {
    var u := Unique(Field(products, "brand"));
    UniqueProperties(Field(products, "brand"), i);
    FilterIsSubsequence(u, Truthy);
    FilterMembership(u, Truthy, Get(products[i], "brand"));
  }
}
