/** The catalog service over the `products` collection: the query a filter
    object builds, single-product lookups, the capped creation, duplication,
    search, related products and the dashboard counts. */
module ProductService {
  import opened Wrappers
  import opened Seqs
  import opened Text
  import opened Js
  import opened Constants
  import opened DocumentStore

  const NOT_FOUND := "Product not found"
  const CAP_MESSAGE := "Cannot exceed maximum of 80 products"

  /** The boolean flags a filter object may switch on. */
  const FLAGS: seq<string> := ["isNewArrival", "isDeal", "isLimitedStock", "isTopHighlight", "isBottomHighlight"]

  // ------------------------------------------------- query construction

  function FlagClause(filters: Record, name: string): seq<Constraint>
  {
    if Truthy(Get(filters, name)) then [WhereEq(name, Bool(true))] else []
  }

  /** The one ordering clause: the requested field, in the requested
      direction or descending; without a field, newest first whatever the
      direction says. */
  function OrderClause(filters: Record): Constraint
  {
    if Truthy(Get(filters, "orderBy")) then
      OrderBy(Get(filters, "orderBy"), if Truthy(Get(filters, "orderDirection")) then Get(filters, "orderDirection") else Str("desc"))
    else OrderBy(Str("createdAt"), Str("desc"))
  }

  /** The equality and membership clauses on the published state, the
      category and the brand. */
  function FieldClauses(filters: Record): seq<Constraint>
  {
    (if Get(filters, "published") != Undefined then [WhereEq("published", Get(filters, "published"))] else [])
    + (if Truthy(Get(filters, "category")) then [WhereArrayContains("category", Get(filters, "category"))] else [])
    + (if Truthy(Get(filters, "brand")) then [WhereEq("brand", Get(filters, "brand"))] else [])
  }

  function FlagClauses(filters: Record): seq<Constraint>
  {
    FlagClause(filters, "isNewArrival") + FlagClause(filters, "isDeal") + FlagClause(filters, "isLimitedStock")
    + FlagClause(filters, "isTopHighlight") + FlagClause(filters, "isBottomHighlight")
  }

  function LimitClause(filters: Record): seq<Constraint>
  {
    if Truthy(Get(filters, "limit")) then [Limit(Get(filters, "limit"))] else []
  }

  /** The constraints `getProducts(filters)` pushes, in order. */
  function Constraints(filters: Record): seq<Constraint>
  {
    FieldClauses(filters) + FlagClauses(filters) + [OrderClause(filters)] + LimitClause(filters)
  }

  /** The clause-pushing chain of `getProducts`. */
  method BuildConstraints(filters: Record) returns (cs: seq<Constraint>)
    ensures cs == Constraints(filters)
  {
    cs := [];
    cs := PushFieldClauses(filters, cs);
    cs := PushFlagClauses(filters, cs);
    cs := PushOrderAndLimit(filters, cs);
  }

  method PushFieldClauses(filters: Record, c0: seq<Constraint>) returns (cs: seq<Constraint>)
    ensures cs == c0 + FieldClauses(filters)
  {
    cs := c0;
    if Get(filters, "published") != Undefined {
      cs := cs + [WhereEq("published", Get(filters, "published"))];
    }
    if Truthy(Get(filters, "category")) {
      cs := cs + [WhereArrayContains("category", Get(filters, "category"))];
    }
    if Truthy(Get(filters, "brand")) {
      cs := cs + [WhereEq("brand", Get(filters, "brand"))];
    }
  }

  method PushFlagClauses(filters: Record, c0: seq<Constraint>) returns (cs: seq<Constraint>)
    ensures cs == c0 + FlagClauses(filters)
  {
    ghost var f1, f2, f3 := FlagClause(filters, "isNewArrival"), FlagClause(filters, "isDeal"), FlagClause(filters, "isLimitedStock");
    ghost var f4, f5 := FlagClause(filters, "isTopHighlight"), FlagClause(filters, "isBottomHighlight");
    cs := PushFlag(filters, c0, "isNewArrival");
    cs := PushFlag(filters, cs, "isDeal");
    assert cs == c0 + (f1 + f2);
    cs := PushFlag(filters, cs, "isLimitedStock");
    assert cs == c0 + (f1 + f2 + f3);
    cs := PushFlag(filters, cs, "isTopHighlight");
    assert cs == c0 + (f1 + f2 + f3 + f4);
    cs := PushFlag(filters, cs, "isBottomHighlight");
    assert cs == c0 + (f1 + f2 + f3 + f4 + f5);
  }

  /** `if (filters[name]) constraints.push(where(name, '==', true))`. */
  method PushFlag(filters: Record, c0: seq<Constraint>, name: string) returns (cs: seq<Constraint>)
    ensures cs == c0 + FlagClause(filters, name)
  {
    cs := c0;
    if Truthy(Get(filters, name)) {
      cs := cs + [WhereEq(name, Bool(true))];
    }
  }

  method PushOrderAndLimit(filters: Record, c0: seq<Constraint>) returns (cs: seq<Constraint>)
    ensures cs == c0 + [OrderClause(filters)] + LimitClause(filters)
  {
    cs := c0;
    if Truthy(Get(filters, "orderBy")) {
      cs := cs + [OrderBy(Get(filters, "orderBy"), if Truthy(Get(filters, "orderDirection")) then Get(filters, "orderDirection") else Str("desc"))];
    } else {
      cs := cs + [OrderBy(Str("createdAt"), Str("desc"))];
    }
    if Truthy(Get(filters, "limit")) {
      cs := cs + [Limit(Get(filters, "limit"))];
    }
  }

  // ------------------------------------------------- what the query means

  /** The documents a filter object selects, stated field by field: the
      published state when given, category membership, brand and each flag
      only when truthy. */
  predicate Selected(filters: Record, data: Record)
  {
    var published := Get(filters, "published");
    var category := Get(filters, "category");
    var brand := Get(filters, "brand");
    (published != Undefined ==> Get(data, "published") == published)
    && (Truthy(category) ==> Get(data, "category").Arr? && category in Get(data, "category").elems)
    && (Truthy(brand) ==> Get(data, "brand") == brand)
    && forall name :: name in FLAGS && Truthy(Get(filters, name)) ==> Get(data, name) == Bool(true)
  }

  /** The filter values the store accepts: an ordering field given as text
      with an `asc` or `desc` direction, and a positive whole-number limit. */
  predicate ValidFilters(filters: Record)
  {
    var path := Get(filters, "orderBy");
    var direction := Get(filters, "orderDirection");
    var count := Get(filters, "limit");
    (Truthy(path) ==> path.Str? && (!Truthy(direction) || direction == Str("asc") || direction == Str("desc")))
    && (Truthy(count) ==> count.Num? && count.n > 0)
  }

  /** The field the results are ordered by. */
  function OrderField(filters: Record): string
  {
    var path := Get(filters, "orderBy");
    if Truthy(path) && path.Str? then path.s else "createdAt"
  }

  predicate Descending(filters: Record)
  {
    !(Truthy(Get(filters, "orderBy")) && Get(filters, "orderDirection") == Str("asc"))
  }

  lemma SingleClause(data: Record, c: Constraint)
    ensures SatisfiesAll(data, [c]) <==> Satisfies(data, c)
  {
    assert [c][0] == c;
  }

  lemma FieldClausesSelect(filters: Record, data: Record)
    ensures SatisfiesAll(data, FieldClauses(filters)) <==>
      (Get(filters, "published") != Undefined ==> Get(data, "published") == Get(filters, "published"))
      && (Truthy(Get(filters, "category")) ==> Get(data, "category").Arr? && Get(filters, "category") in Get(data, "category").elems)
      && (Truthy(Get(filters, "brand")) ==> Get(data, "brand") == Get(filters, "brand"))
  {
    var a := if Get(filters, "published") != Undefined then [WhereEq("published", Get(filters, "published"))] else [];
    var b := if Truthy(Get(filters, "category")) then [WhereArrayContains("category", Get(filters, "category"))] else [];
    var c := if Truthy(Get(filters, "brand")) then [WhereEq("brand", Get(filters, "brand"))] else [];
    SatisfiesAllAppend(data, a + b, c);
    SatisfiesAllAppend(data, a, b);
    SingleClause(data, WhereEq("published", Get(filters, "published")));
    SingleClause(data, WhereArrayContains("category", Get(filters, "category")));
    SingleClause(data, WhereEq("brand", Get(filters, "brand")));
  }

  lemma FlagClausesSelect(filters: Record, data: Record)
    ensures SatisfiesAll(data, FlagClauses(filters)) <==>
      forall name :: name in FLAGS && Truthy(Get(filters, name)) ==> Get(data, name) == Bool(true)
  {
    var f0 := FlagClause(filters, "isNewArrival");
    var f1 := FlagClause(filters, "isDeal");
    var f2 := FlagClause(filters, "isLimitedStock");
    var f3 := FlagClause(filters, "isTopHighlight");
    var f4 := FlagClause(filters, "isBottomHighlight");
    SatisfiesAllAppend(data, f0 + f1 + f2 + f3, f4);
    SatisfiesAllAppend(data, f0 + f1 + f2, f3);
    SatisfiesAllAppend(data, f0 + f1, f2);
    SatisfiesAllAppend(data, f0, f1);
    forall name | name in FLAGS
      ensures SatisfiesAll(data, FlagClause(filters, name)) <==> (Truthy(Get(filters, name)) ==> Get(data, name) == Bool(true))
    {
      SingleClause(data, WhereEq(name, Bool(true)));
    }
  }

  /** A stored document passes the query's filters exactly when the filter
      object selects it. */
  lemma ConstraintsSelect(filters: Record, data: Record)
    ensures SatisfiesAll(data, Constraints(filters)) <==> Selected(filters, data)
  {
    var order := [OrderClause(filters)];
    SatisfiesAllAppend(data, FieldClauses(filters) + FlagClauses(filters) + order, LimitClause(filters));
    SatisfiesAllAppend(data, FieldClauses(filters) + FlagClauses(filters), order);
    SatisfiesAllAppend(data, FieldClauses(filters), FlagClauses(filters));
    FieldClausesSelect(filters, data);
    FlagClausesSelect(filters, data);
    SingleClause(data, OrderClause(filters));
    SingleClause(data, Limit(Get(filters, "limit")));
  }

  /** The clauses a filter object asks for, one by one: the published state
      whenever it is given, true or false; category, brand and flag clauses
      only for truthy values; one ordering, newest first when no field is
      named; a limit only when one is given. */
  predicate IsClauseOf(filters: Record, c: Constraint)
  {
    (c == WhereEq("published", Get(filters, "published")) && Get(filters, "published") != Undefined)
    || (c == WhereArrayContains("category", Get(filters, "category")) && Truthy(Get(filters, "category")))
    || (c == WhereEq("brand", Get(filters, "brand")) && Truthy(Get(filters, "brand")))
    || (c.WhereEq? && c.field in FLAGS && c.value == Bool(true) && Truthy(Get(filters, c.field)))
    || c == OrderClause(filters)
    || (c == Limit(Get(filters, "limit")) && Truthy(Get(filters, "limit")))
  }

  lemma FlagClausesMembers(filters: Record, c: Constraint)
    ensures c in FlagClauses(filters) <==> c.WhereEq? && c.field in FLAGS && c.value == Bool(true) && Truthy(Get(filters, c.field))
  {
    var f0 := FlagClause(filters, "isNewArrival");
    var f1 := FlagClause(filters, "isDeal");
    var f2 := FlagClause(filters, "isLimitedStock");
    var f3 := FlagClause(filters, "isTopHighlight");
    var f4 := FlagClause(filters, "isBottomHighlight");
    assert c in FlagClauses(filters) <==> c in f0 || c in f1 || c in f2 || c in f3 || c in f4;
  }

  /** The built query holds exactly the clauses the filter object asks for. */
  lemma ConstraintsMembers(filters: Record, c: Constraint)
    ensures c in Constraints(filters) <==> IsClauseOf(filters, c)
  {
    var fields := FieldClauses(filters);
    var flags := FlagClauses(filters);
    assert c in Constraints(filters) <==> c in fields || c in flags || c == OrderClause(filters) || c in LimitClause(filters);
    FlagClausesMembers(filters, c);
  }

  /** The query has exactly one ordering, at most one limit, and no filter
      on `undefined`. */
  lemma ConstraintsShape(filters: Record)
    ensures var cs := Constraints(filters);
      && (forall c :: c in cs && c.OrderBy? ==> c == OrderClause(filters))
      && OrderClause(filters) in cs
      && (forall c :: c in cs && c.Limit? ==> c == Limit(Get(filters, "limit")))
      && !HasUndefinedFilter(cs)
  {
    var cs := Constraints(filters);
    forall c | c in cs ensures IsClauseOf(filters, c) {
      ConstraintsMembers(filters, c);
    }
    forall i | 0 <= i < |cs| && (cs[i].WhereEq? || cs[i].WhereArrayContains?)
      ensures cs[i].value != Undefined
    {
      assert IsClauseOf(filters, cs[i]);
    }
    ConstraintsMembers(filters, OrderClause(filters));
  }

  /** The store accepts the built query exactly when the filter values are
      valid, and then orders by the requested field and direction. */
  lemma ConstraintsValid(filters: Record)
    ensures ValidQuery(Constraints(filters)) <==> ValidFilters(filters)
    ensures ValidFilters(filters) ==> Ordering(Constraints(filters)) == Success((Some(OrderField(filters)), Descending(filters)))
  {
    var cs := Constraints(filters);
    ConstraintsShape(filters);
    ConstraintsMembers(filters, Limit(Get(filters, "limit")));
    FirstOrderByIs(cs, OrderClause(filters));
    FirstLimitIs(cs, Limit(Get(filters, "limit")));
  }

  lemma FirstOrderByIs(cs: seq<Constraint>, c: Constraint)
    requires c in cs && forall x :: x in cs && x.OrderBy? ==> x == c
    requires c.OrderBy?
    ensures FirstOrderBy(cs) == Some(c)
  {
  }

  lemma FirstLimitIs(cs: seq<Constraint>, c: Constraint)
    requires c.Limit?
    requires forall x :: x in cs && x.Limit? ==> x == c
    ensures FirstLimit(cs) == if c in cs then Some(c) else None
  {
    if c in cs {
      var i :| 0 <= i < |cs| && cs[i] == c;
    }
  }

  // ------------------------------------------------------------- reads

  /** `getProducts(filters)`: the selected products as `{ id, ...data }`
      records, in the query's order; the store refuses invalid ordering or
      limit values. */
  function GetProducts(store: seq<Doc>, filters: Record): (r: Result<seq<Record>>)
    ensures r.Failure? <==> !ValidFilters(filters)
  {
    ConstraintsValid(filters);
    match RunQuery(store, Constraints(filters))
    case Failure(m) => Failure(m)
    case Success(docs) => Success(Snapshots(docs))
  }

  /** Every listed product is a stored product the filters select that has
      the ordering field, and a limit bounds the count. */
  lemma GetProductsSound(store: seq<Doc>, filters: Record, i: int)
    requires GetProducts(store, filters).Success?
    requires 0 <= i < |GetProducts(store, filters).value|
    ensures exists d :: d in store && GetProducts(store, filters).value[i] == Snapshot(d) &&
                        Selected(filters, d.data) && OrderField(filters) in d.data
  {
    ConstraintsValid(filters);
    var docs := RunQuery(store, Constraints(filters)).value;
    RunQuerySound(store, Constraints(filters));
    assert docs[i] in docs;
    ConstraintsSelect(filters, docs[i].data);
  }

  /** Without a limit, every stored product the filters select and that has
      the ordering field is listed. */
  lemma GetProductsComplete(store: seq<Doc>, filters: Record, d: Doc)
    requires ValidFilters(filters) && !Truthy(Get(filters, "limit"))
    requires d in store && Selected(filters, d.data) && OrderField(filters) in d.data
    ensures Snapshot(d) in GetProducts(store, filters).value
  {
    var cs := Constraints(filters);
    ConstraintsValid(filters);
    ConstraintsShape(filters);
    ConstraintsMembers(filters, Limit(Get(filters, "limit")));
    FirstLimitIs(cs, Limit(Get(filters, "limit")));
    ConstraintsSelect(filters, d.data);
    MatchingExact(store, cs, d);
    var docs := RunQuery(store, cs).value;
    var k :| 0 <= k < |docs| && docs[k] == d;
    assert GetProducts(store, filters).value[k] == Snapshot(d);
  }

  /** `getProduct(id)`. */
  function GetProduct(store: seq<Doc>, productId: string): (r: Result<Record>)
    ensures r.Failure? <==> forall d :: d in store ==> d.id != productId
    ensures r.Failure? ==> r.message == NOT_FOUND
    ensures r.Success? ==> exists d :: d in store && d.id == productId && r.value == Snapshot(d)
  {
    match FindById(store, productId)
    case None => Failure(NOT_FOUND)
    case Some(d) => Success(Snapshot(d))
  }

  function SlugQuery(slug: Value): seq<Constraint>
  {
    [WhereEq("slug", slug), Limit(Num(1))]
  }

  /** `getProductBySlug(slug)`: the first product, in document-id order,
      whose slug equals the given one. */
  function GetProductBySlug(store: seq<Doc>, slug: Value): (r: Result<Record>)
    ensures r.Success? ==> exists d :: d in store && "slug" in d.data && d.data["slug"] == slug && r.value == Snapshot(d)
  {
    match RunQuery(store, SlugQuery(slug))
    case Failure(m) => Failure(m)
    case Success(docs) =>
      if docs == [] then Failure(NOT_FOUND)
      else SlugHit(store, slug); Success(Snapshot(docs[0]))
  }

  /** The first document the slug query lists is a stored one with that
      slug. */
  lemma SlugHit(store: seq<Doc>, slug: Value)
    requires RunQuery(store, SlugQuery(slug)).Success? && RunQuery(store, SlugQuery(slug)).value != []
    ensures var d := RunQuery(store, SlugQuery(slug)).value[0];
      d in store && "slug" in d.data && d.data["slug"] == slug
  {
    RunQuerySound(store, SlugQuery(slug));
    var d := RunQuery(store, SlugQuery(slug)).value[0];
    assert d in RunQuery(store, SlugQuery(slug)).value;
    SlugQueryFacts(slug, d.data);
  }

  lemma SlugQueryFacts(slug: Value, data: Record)
    ensures FirstOrderBy(SlugQuery(slug)) == None
    ensures FirstLimit(SlugQuery(slug)) == Some(Limit(Num(1)))
    ensures HasUndefinedFilter(SlugQuery(slug)) <==> slug == Undefined
    ensures SatisfiesAll(data, SlugQuery(slug)) <==> "slug" in data && data["slug"] == slug
  {
    var cs := SlugQuery(slug);
    assert cs[0] == WhereEq("slug", slug) && cs[1] == Limit(Num(1));
    assert cs[1..] == [Limit(Num(1))];
    assert FirstOrderBy(cs[1..][1..]) == None;
  }

  /** A slug lookup fails with "Product not found" exactly when no stored
      product has that slug, and otherwise returns one that has it. */
  lemma GetProductBySlugSpec(store: seq<Doc>, slug: Value)
    requires slug != Undefined
    ensures var r := GetProductBySlug(store, slug);
      && (r.Failure? <==> forall d :: d in store ==> Get(d.data, "slug") != slug)
      && (r.Failure? ==> r.message == NOT_FOUND)
      && (r.Success? ==> exists d :: d in store && Get(d.data, "slug") == slug && r.value == Snapshot(d))
  {
    var cs := SlugQuery(slug);
    SlugQueryFacts(slug, map[]);
    assert RunQuery(store, cs).Success?;
    RunQuerySound(store, cs);
    var docs := RunQuery(store, cs).value;
    if docs != [] {
      SlugQueryFacts(slug, docs[0].data);
      assert docs[0] in docs;
    } else {
      forall d | d in store ensures Get(d.data, "slug") != slug {
        SlugQueryFacts(slug, d.data);
        if Get(d.data, "slug") == slug {
          RunQueryNonEmpty(store, cs, d);
        }
      }
    }
  }

  /** A lookup by an undefined slug is refused by the store. */
  lemma GetProductBySlugUndefined(store: seq<Doc>)
    ensures GetProductBySlug(store, Undefined).Failure?
    ensures GetProductBySlug(store, Undefined).message != NOT_FOUND
  {
    SlugQueryFacts(Undefined, map[]);
    var r := RunQuery(store, SlugQuery(Undefined));
    assert r == Failure("Function where() called with invalid data. Unsupported field value: undefined");
    assert |r.message| != |NOT_FOUND|;
  }

  // ------------------------------------------------------------ writes

  /** The products the cap counts: `getProducts({})` orders by `createdAt`,
      so only stored products that have that field are counted. */
  function StoredCount(store: seq<Doc>): nat
  {
    |Filter(store, HasField(Some("createdAt")))|
  }

  lemma EmptyFilters()
    ensures Constraints(map[]) == [OrderBy(Str("createdAt"), Str("desc"))]
    ensures ValidFilters(map[])
    ensures OrderField(map[]) == "createdAt"
  {
  }

  /** The cap's count is the number of stored products with `createdAt`. */
  lemma {:induction false} AllProductsCount(store: seq<Doc>)
    ensures GetProducts(store, map[]).Success?
    ensures |GetProducts(store, map[]).value| == StoredCount(store)
  {
    EmptyFilters();
    var cs := Constraints(map[]);
    ConstraintsValid(map[]);
    FilterAll(store, Matcher(cs));
    MatchingLength(store, cs);
    assert FirstLimit(cs) == None;
  }

  /** The record `createProduct` stores: the given fields with both
      timestamps set to the store's clock. */
  function Stamped(data: Record, now: int): (r: Record)
    ensures r.Keys == data.Keys + {"createdAt", "updatedAt"}
    ensures r["createdAt"] == Num(now) && r["updatedAt"] == Num(now)
    ensures forall k :: k in data && k != "createdAt" && k != "updatedAt" ==> r[k] == data[k]
  {
    data["createdAt" := Num(now)]["updatedAt" := Num(now)]
  }

  /** `createProduct(data)`, with the id the store assigns and the store's
      clock as parameters. It returns the new store and the created record. */
  function CreateProduct(store: seq<Doc>, data: Record, newId: string, now: int): (r: Result<(seq<Doc>, Record)>)
    ensures r.Failure? <==> StoredCount(store) >= TOTAL_PRODUCTS
    ensures r.Failure? ==> r.message == CAP_MESSAGE
    ensures r.Success? ==> r.value.0 == store + [Doc(newId, Stamped(data, now))]
    ensures r.Success? ==> r.value.1 == Snapshot(Doc(newId, Stamped(data, now)))
  {
    AllProductsCount(store);
    var all := GetProducts(store, map[]).value;
    if |all| >= TOTAL_PRODUCTS then Failure(CAP_MESSAGE)
    else
      var stored := Doc(newId, Stamped(data, now));
      Success((store + [stored], Snapshot(stored)))
  }

  /** A successful creation adds one counted product, so a store within the
      cap stays within it. */
  lemma {:induction false} CreateProductKeepsCap(store: seq<Doc>, data: Record, newId: string, now: int)
    requires CreateProduct(store, data, newId, now).Success?
    ensures StoredCount(CreateProduct(store, data, newId, now).value.0) == StoredCount(store) + 1
    ensures StoredCount(CreateProduct(store, data, newId, now).value.0) <= TOTAL_PRODUCTS
  {
    var stored := Doc(newId, Stamped(data, now));
    FilterAppend(store, [stored], HasField(Some("createdAt")));
    assert Filter([stored], HasField(Some("createdAt"))) == [stored];
  }

  /** `duplicateProduct(id)`: the fetched record loses its `id`, gets a
      "(Copy)" title, a slug suffixed with "-copy-" and the client clock, and
      is unpublished before it goes through `createProduct`. */
  method DuplicateProduct(store: seq<Doc>, productId: string, newId: string, now: int)
    returns (r: Result<(seq<Doc>, Record)>)
    ensures r.Failure? <==> (forall d :: d in store ==> d.id != productId) || StoredCount(store) >= TOTAL_PRODUCTS
    ensures r.Failure? ==> r.message == NOT_FOUND || r.message == CAP_MESSAGE
    ensures r.Success? ==> |r.value.0| == |store| + 1 && r.value.0[..|store|] == store && r.value.0[|store|].id == newId
    ensures r.Success? ==>
      exists d :: d in store && d.id == productId && IsCopy(Snapshot(d), r.value.0[|store|].data, now)
  {
    var found := GetProduct(store, productId);
    if found.Failure? {
      return Failure(found.message);
    }
    var product := found.value;
    ghost var original := product;
    product := product - {"id"};
    product := product["title" := Str(ToStr(Get(product, "title")) + " (Copy)")];
    product := product["slug" := Str(ToStr(Get(product, "slug")) + "-copy-" + IntToString(now))];
    product := product["published" := Bool(false)];
    r := CreateProduct(store, product, newId, now);
    if r.Success? {
      ghost var d :| d in store && d.id == productId && original == Snapshot(d);
      assert product == Relabelled(original, now);
      StampedCopy(original, now);
    }
  }

  /** The stored copy of `original`: no `id`, the title with " (Copy)", the
      slug with "-copy-" and the clock, unpublished, fresh timestamps, and
      every other field as it was. */
  predicate IsCopy(original: Record, copy: Record, now: int)
  {
    && copy.Keys == original.Keys - {"id"} + {"title", "slug", "published", "createdAt", "updatedAt"}
    && copy["title"] == Str(ToStr(Get(original, "title")) + " (Copy)")
    && copy["slug"] == Str(ToStr(Get(original, "slug")) + "-copy-" + IntToString(now))
    && copy["published"] == Bool(false)
    && copy["createdAt"] == Num(now) && copy["updatedAt"] == Num(now)
    && forall k :: k in original && k !in {"id", "title", "slug", "published", "createdAt", "updatedAt"} ==> copy[k] == original[k]
  }

  /** The fetched record after the in-place edits of `duplicateProduct`. */
  function Relabelled(original: Record, now: int): Record
  {
    var product := original - {"id"};
    var product := product["title" := Str(ToStr(Get(product, "title")) + " (Copy)")];
    var product := product["slug" := Str(ToStr(Get(product, "slug")) + "-copy-" + IntToString(now))];
    product["published" := Bool(false)]
  }

  lemma StampedCopy(original: Record, now: int)
    ensures IsCopy(original, Stamped(Relabelled(original, now), now), now)
  {
    var copy := Stamped(Relabelled(original, now), now);
    assert Get(original - {"id"}, "title") == Get(original, "title");
    assert Get(original - {"id"}, "slug") == Get(original, "slug");
  }

  // ------------------------------------------------------- derived reads

  const PUBLISHED_ONLY: Record := map["published" := Bool(true)]

  /** A tag list some of whose text tags contain the term once lower-cased. */
  predicate SomeTagIncludes(tags: Value, term: string)
  {
    tags.Arr? && exists i :: 0 <= i < |tags.elems| && LowerIncludes(tags.elems[i], term)
  }

  /** The search rule: the lower-cased title, brand or model, or some
      lower-cased tag, contains the (already lower-cased) term. */
  predicate SearchMatches(p: Record, term: string)
  {
    LowerIncludes(Get(p, "title"), term) || LowerIncludes(Get(p, "brand"), term)
    || LowerIncludes(Get(p, "model"), term) || SomeTagIncludes(Get(p, "tags"), term)
  }

  function SearchMatcher(term: string): Record -> bool
  {
    (p: Record) => SearchMatches(p, term)
  }

  lemma PublishedOnlyFilters()
    ensures ValidFilters(PUBLISHED_ONLY) && !Truthy(Get(PUBLISHED_ONLY, "limit"))
    ensures OrderField(PUBLISHED_ONLY) == "createdAt"
    ensures forall data :: Selected(PUBLISHED_ONLY, data) <==> Get(data, "published") == Bool(true)
  {
  }

  /** `searchProducts(term)`: the published products, newest first, that
      match the lower-cased term. A term that is not text has no
      `toLowerCase` and throws. */
  function SearchProducts(store: seq<Doc>, searchTerm: Value): (r: Result<seq<Record>>)
    ensures r.Failure? <==> !searchTerm.Str?
    ensures r.Success? ==> IsSubsequence(r.value, GetProducts(store, PUBLISHED_ONLY).value)
    ensures r.Success? ==> forall p :: p in r.value ==> SearchMatches(p, Lower(searchTerm.s))
  {
    if IsNullish(searchTerm) then Failure("Cannot read properties of " + ToStr(searchTerm) + " (reading 'toLowerCase')")
    else if !searchTerm.Str? then Failure("searchTerm.toLowerCase is not a function")
    else
      PublishedOnlyFilters();
      var products := GetProducts(store, PUBLISHED_ONLY).value;
      FilterIsSubsequence(products, SearchMatcher(Lower(searchTerm.s)));
      Success(Filter(products, SearchMatcher(Lower(searchTerm.s))))
  }

  /** Search finds exactly the published products with `createdAt` that
      match: every stored one is found, and nothing else is. */
  lemma SearchProductsExact(store: seq<Doc>, term: string, d: Doc)
    requires d in store
    ensures Get(d.data, "published") == Bool(true) && "createdAt" in d.data && SearchMatches(Snapshot(d), Lower(term))
      ==> Snapshot(d) in SearchProducts(store, Str(term)).value
    ensures forall p :: p in SearchProducts(store, Str(term)).value ==>
      exists e :: e in store && p == Snapshot(e) && Get(e.data, "published") == Bool(true)
  {
    PublishedOnlyFilters();
    var products := GetProducts(store, PUBLISHED_ONLY).value;
    var matcher := SearchMatcher(Lower(term));
    if Get(d.data, "published") == Bool(true) && "createdAt" in d.data && SearchMatches(Snapshot(d), Lower(term)) {
      GetProductsComplete(store, PUBLISHED_ONLY, d);
      FilterMembership(products, matcher, Snapshot(d));
    }
    forall p | p in SearchProducts(store, Str(term)).value
      ensures exists e :: e in store && p == Snapshot(e) && Get(e.data, "published") == Bool(true)
    {
      FilterMembership(products, matcher, p);
      var i :| 0 <= i < |products| && products[i] == p;
      GetProductsSound(store, PUBLISHED_ONLY, i);
    }
  }

  /** `products.slice(0, end)`: a negative end counts back from the end. */
  function SliceTo<T>(s: seq<T>, end: int): (r: seq<T>)
    ensures r <= s
    ensures end >= 0 ==> |r| == if end < |s| then end else |s|
    ensures end < 0 ==> |r| == if |s| + end > 0 then |s| + end else 0
  {
    if end >= 0 then Take(s, end)
    else if |s| + end > 0 then s[..|s| + end]
    else []
  }

  function NotProduct(productId: string): Record -> bool
  {
    (p: Record) => !StrictEquals(Get(p, "id"), Str(productId))
  }

  /** The filter object of `getRelatedProducts`: published products of the
      product's brand. */
  function RelatedFilters(product: Record): (r: Record)
    ensures ValidFilters(r)
  {
    map["published" := Bool(true), "brand" := Get(product, "brand")]
  }

  /** `getRelatedProducts(id, limit)`, with the limit defaulting to 8. */
  function GetRelatedProducts(store: seq<Doc>, productId: string, limit: Option<int>): (r: Result<seq<Record>>)
    ensures r.Failure? <==> forall d :: d in store ==> d.id != productId
    ensures r.Failure? ==> r.message == NOT_FOUND
    ensures r.Success? ==> forall p :: p in r.value ==> !StrictEquals(Get(p, "id"), Str(productId))
    ensures r.Success? && limit.GetOr(RELATED_PRODUCTS_LIMIT) >= 0 ==> |r.value| <= limit.GetOr(RELATED_PRODUCTS_LIMIT)
    ensures FindById(store, productId).Some? ==>
      var others := Filter(GetProducts(store, RelatedFilters(Snapshot(FindById(store, productId).value))).value, NotProduct(productId));
      r.Success? && r.value == SliceTo(others, limit.GetOr(RELATED_PRODUCTS_LIMIT))
  {
    match GetProduct(store, productId)
    case Failure(m) => Failure(m)
    case Success(product) =>
      var products := GetProducts(store, RelatedFilters(product)).value;
      var others := Filter(products, NotProduct(productId));
      Success(SliceTo(others, limit.GetOr(RELATED_PRODUCTS_LIMIT)))
  }

  /** Related products are published and share the product's brand when it
      has one. */
  lemma RelatedProductsSameBrand(store: seq<Doc>, productId: string, limit: Option<int>, d: Doc)
    requires FindById(store, productId) == Some(d)
    ensures var brand := Get(Snapshot(d), "brand");
      forall p :: p in GetRelatedProducts(store, productId, limit).value ==>
        Get(p, "published") == Bool(true) && (Truthy(brand) ==> Get(p, "brand") == brand)
  {
    var filters := RelatedFilters(Snapshot(d));
    assert ValidFilters(filters);
    var products := GetProducts(store, filters).value;
    var others := Filter(products, NotProduct(productId));
    assert GetRelatedProducts(store, productId, limit).value <= others;
    forall p | p in GetRelatedProducts(store, productId, limit).value
      ensures Get(p, "published") == Bool(true) && (Truthy(Get(Snapshot(d), "brand")) ==> Get(p, "brand") == Get(Snapshot(d), "brand"))
    {
      assert p in others;
      RelatedMember(store, filters, productId, p);
      var e :| e in store && p == Snapshot(e) && Selected(filters, e.data);
      SelectedSnapshot(filters, e);
    }
  }

  /** Every published product of the product's brand (of any brand when
      it has none) that has `createdAt` and is not the product itself is
      related, unless the list is already full. */
  lemma RelatedProductsComplete(store: seq<Doc>, productId: string, limit: Option<int>, d: Doc, e: Doc)
    requires FindById(store, productId) == Some(d)
    requires e in store && "createdAt" in e.data && RelatedTo(Snapshot(d), e.data)
    requires !StrictEquals(Get(Snapshot(e), "id"), Str(productId))
    requires limit.GetOr(RELATED_PRODUCTS_LIMIT) >= 0
    ensures var r := GetRelatedProducts(store, productId, limit).value;
      Snapshot(e) in r || |r| == limit.GetOr(RELATED_PRODUCTS_LIMIT)
  {
    var filters := RelatedFilters(Snapshot(d));
    RelatedFiltersFacts(Snapshot(d));
    GetProductsComplete(store, filters, e);
    var products := GetProducts(store, filters).value;
    FilterMembership(products, NotProduct(productId), Snapshot(e));
  }

  /** A record the related-products query selects for `product`: published
      and, when the product has a brand, of that brand. */
  predicate RelatedTo(product: Record, data: Record)
  {
    Get(data, "published") == Bool(true) && (Truthy(Get(product, "brand")) ==> Get(data, "brand") == Get(product, "brand"))
  }

  /** The related-products filters ask for no limit, order by `createdAt`
      and select the published products of the brand, if any. */
  lemma RelatedFiltersFacts(product: Record)
    ensures var filters := RelatedFilters(product);
      && !Truthy(Get(filters, "limit")) && OrderField(filters) == "createdAt"
      && forall data :: RelatedTo(product, data) ==> Selected(filters, data)
  {
    var filters := RelatedFilters(product);
    assert Get(filters, "limit") == Undefined;
    assert Get(filters, "orderBy") == Undefined;
    assert Get(filters, "category") == Undefined;
    forall name | name in FLAGS ensures Get(filters, name) == Undefined {
    }
  }

  lemma RelatedMember(store: seq<Doc>, filters: Record, productId: string, p: Record)
    requires ValidFilters(filters)
    requires p in Filter(GetProducts(store, filters).value, NotProduct(productId))
    ensures exists e :: e in store && p == Snapshot(e) && Selected(filters, e.data)
  {
    var products := GetProducts(store, filters).value;
    FilterMembership(products, NotProduct(productId), p);
    var i :| 0 <= i < |products| && products[i] == p;
    GetProductsSound(store, filters, i);
  }

  /** The filters never mention `id`, so they judge a snapshot as they judge
      the stored fields. */
  lemma SelectedSnapshot(filters: Record, e: Doc)
    requires Selected(filters, e.data)
    ensures Selected(filters, Snapshot(e))
  {
  }

  /** Without a brand the related-products query has no brand clause. */
  lemma RelatedNoBrandClause(product: Record)
    requires !Truthy(Get(product, "brand"))
    ensures forall c :: c in Constraints(RelatedFilters(product)) ==> !(c.WhereEq? && c.field == "brand")
  {
    var filters := RelatedFilters(product);
    forall c | c in Constraints(filters) ensures !(c.WhereEq? && c.field == "brand") {
      ConstraintsMembers(filters, c);
    }
  }

  datatype CategoryCounts = CategoryCounts(
    total: nat, topHighlight: nat, deals: nat, newArrivals: nat, limitedStock: nat,
    bottomHighlight: nat, premium: nat, standard: nat, basic: nat)

  function Flagged(name: string): Record -> bool
  {
    (p: Record) => Truthy(Get(p, name))
  }

  /** `p.category?.includes(name)`. */
  function InCategory(name: string): Record -> bool
  {
    (p: Record) => Includes(Get(p, "category"), Str(name))
  }

  /** `getProductsCountByCategory()`: counts over `getProducts({})`. */
  function GetProductsCountByCategory(store: seq<Doc>): (r: CategoryCounts)
    ensures r.total == StoredCount(store)
    ensures var products := GetProducts(store, map[]).value;
      && r.topHighlight == Count(products, Flagged("isTopHighlight"))
      && r.deals == Count(products, Flagged("isDeal"))
      && r.newArrivals == Count(products, Flagged("isNewArrival"))
      && r.limitedStock == Count(products, Flagged("isLimitedStock"))
      && r.bottomHighlight == Count(products, Flagged("isBottomHighlight"))
      && r.premium == Count(products, InCategory(PREMIUM))
      && r.standard == Count(products, InCategory(STANDARD))
      && r.basic == Count(products, InCategory(BASIC))
  {
    AllProductsCount(store);
    var products := GetProducts(store, map[]).value;
    CategoryCounts(
      |products|,
      Count(products, Flagged("isTopHighlight")),
      Count(products, Flagged("isDeal")),
      Count(products, Flagged("isNewArrival")),
      Count(products, Flagged("isLimitedStock")),
      Count(products, Flagged("isBottomHighlight")),
      Count(products, InCategory(PREMIUM)),
      Count(products, InCategory(STANDARD)),
      Count(products, InCategory(BASIC)))
  }

  /** How many stored products that have `createdAt` pass a test. */
  function StoredWith(store: seq<Doc>, p: Record -> bool): nat
  {
    Count(Filter(store, HasField(Some("createdAt"))), OnSnapshot(p))
  }

  /** Counting over `getProducts({})` counts the stored products that have
      `createdAt`, whatever order the listing puts them in. */
  lemma CountOverStored(store: seq<Doc>, p: Record -> bool)
    ensures GetProducts(store, map[]).Success?
    ensures Count(GetProducts(store, map[]).value, p) == StoredWith(store, p)
  {
    EmptyFilters();
    var cs := Constraints(map[]);
    ConstraintsValid(map[]);
    FilterAll(store, Matcher(cs));
    assert FirstLimit(cs) == None;
    var stored := Filter(store, HasField(Some("createdAt")));
    var m := Matching(store, cs);
    assert m == Sort(stored, Some("createdAt"), true);
    CountSnapshots(m, p);
    CountPermutation(m, stored, OnSnapshot(p));
  }

  /** Each count is the number of stored products with `createdAt` that
      carry the flag, or whose category list holds the tier. */
  lemma CategoryCountsMeaning(store: seq<Doc>)
    ensures var r := GetProductsCountByCategory(store);
      && r.topHighlight == StoredWith(store, Flagged("isTopHighlight"))
      && r.deals == StoredWith(store, Flagged("isDeal"))
      && r.newArrivals == StoredWith(store, Flagged("isNewArrival"))
      && r.limitedStock == StoredWith(store, Flagged("isLimitedStock"))
      && r.bottomHighlight == StoredWith(store, Flagged("isBottomHighlight"))
      && r.premium == StoredWith(store, InCategory(PREMIUM))
      && r.standard == StoredWith(store, InCategory(STANDARD))
      && r.basic == StoredWith(store, InCategory(BASIC))
  {
    CountOverStored(store, Flagged("isTopHighlight"));
    CountOverStored(store, Flagged("isDeal"));
    CountOverStored(store, Flagged("isNewArrival"));
    CountOverStored(store, Flagged("isLimitedStock"));
    CountOverStored(store, Flagged("isBottomHighlight"));
    CountOverStored(store, InCategory(PREMIUM));
    CountOverStored(store, InCategory(STANDARD));
    CountOverStored(store, InCategory(BASIC));
  }
}
