/** The hosted document store as the services see it: a collection is a
    sequence of documents, and a query is the list of constraints the
    services build (equality and array-membership filters, one ordering, a
    limit). Evaluation follows the store's rules: filters are conjunctive, a
    document without the ordering field is left out, equal keys are ordered
    by document id in the same direction, and the limit keeps a prefix. */
module DocumentStore {
  import opened Wrappers
  import opened Seqs
  import opened Js

  datatype Doc = Doc(id: string, data: Record)

  /** `{ id: doc.id, ...doc.data() }`: a stored `id` field overrides the
      document id. */
  function Snapshot(d: Doc): (r: Record)
    ensures r.Keys == d.data.Keys + {"id"}
    ensures "id" !in d.data ==> r["id"] == Str(d.id)
    ensures forall k :: k in d.data ==> r[k] == d.data[k]
  {
    map["id" := Str(d.id)] + d.data
  }

  function Snapshots(docs: seq<Doc>): (r: seq<Record>)
    ensures |r| == |docs|
    ensures forall i :: 0 <= i < |r| ==> r[i] == Snapshot(docs[i])
  {
    seq(|docs|, i requires 0 <= i < |docs| => Snapshot(docs[i]))
  }

  /** A test on records as a test on the documents they are snapshots of. */
  function OnSnapshot(p: Record -> bool): Doc -> bool
  {
    (d: Doc) => p(Snapshot(d))
  }

  /** Counting snapshots that pass a test counts the documents whose
      snapshot passes it. */
  lemma {:induction false} CountSnapshots(docs: seq<Doc>, p: Record -> bool)
    ensures Count(Snapshots(docs), p) == Count(docs, OnSnapshot(p))
  {
    if docs != [] {
      CountSnapshots(docs[1..], p);
      var s := Snapshots(docs);
      assert s[1..] == Snapshots(docs[1..]);
      assert s[0] == Snapshot(docs[0]);
    }
  }

  datatype Constraint =
    | WhereEq(field: string, value: Value)
    | WhereArrayContains(field: string, value: Value)
    | OrderBy(path: Value, direction: Value)
    | Limit(count: Value)

  // ------------------------------------------------------------- filters

  predicate Satisfies(data: Record, c: Constraint)
  {
    match c
    case WhereEq(f, v) => f in data && data[f] == v
    case WhereArrayContains(f, v) => f in data && data[f].Arr? && v in data[f].elems
    case _ => true
  }

  predicate SatisfiesAll(data: Record, cs: seq<Constraint>)
  {
    forall i :: 0 <= i < |cs| ==> Satisfies(data, cs[i])
  }

  lemma SatisfiesAllAppend(data: Record, a: seq<Constraint>, b: seq<Constraint>)
    ensures SatisfiesAll(data, a + b) <==> SatisfiesAll(data, a) && SatisfiesAll(data, b)
  {
    if SatisfiesAll(data, a) && SatisfiesAll(data, b) {
      forall i | 0 <= i < |a + b| ensures Satisfies(data, (a + b)[i]) {
        if i >= |a| {
          assert (a + b)[i] == b[i - |a|];
        }
      }
    }
    if SatisfiesAll(data, a + b) {
      forall i | 0 <= i < |a| ensures Satisfies(data, a[i]) {
        assert (a + b)[i] == a[i];
      }
      forall i | 0 <= i < |b| ensures Satisfies(data, b[i]) {
        assert (a + b)[|a| + i] == b[i];
      }
    }
  }

  function Matcher(cs: seq<Constraint>): Doc -> bool
  {
    (d: Doc) => SatisfiesAll(d.data, cs)
  }

  /** A filter on `undefined` is refused by the store. */
  predicate HasUndefinedFilter(cs: seq<Constraint>)
  {
    exists i :: 0 <= i < |cs| && (cs[i].WhereEq? || cs[i].WhereArrayContains?) && cs[i].value == Undefined
  }

  // ------------------------------------------------------------ ordering

  /** The store's order of value types: null, booleans, numbers (NaN
      first), strings, arrays, maps. */
  function TypeRank(v: Value): int
  {
    match v
    case Undefined => -1
    case Null => 0
    case Bool(_) => 1
    case NaN => 2
    case Num(_) => 2
    case Str(_) => 3
    case Arr(_) => 4
    case Obj(_) => 5
  }

  function Sign(x: int): (r: int)
    ensures r == -1 || r == 0 || r == 1
    ensures (r < 0 <==> x < 0) && (r > 0 <==> x > 0)
  {
    if x < 0 then -1 else if x > 0 then 1 else 0
  }

  /** Code-point lexicographic order: -1, 0 or 1. */
  function CompareStrings(a: string, b: string): (r: int)
    ensures r == -1 || r == 0 || r == 1
    ensures r == 0 <==> a == b
  {
    if a == [] && b == [] then 0
    else if a == [] then -1
    else if b == [] then 1
    else if a[0] != b[0] then Sign(a[0] as int - b[0] as int)
    else
      var r := CompareStrings(a[1..], b[1..]);
      assert r == 0 ==> a == [a[0]] + a[1..] == [b[0]] + b[1..] == b;
      r
  }

  /** Swapping the operands negates the comparison. */
  lemma {:induction false} CompareStringsAntisymmetric(a: string, b: string)
    ensures CompareStrings(b, a) == -CompareStrings(a, b)
  {
    if a != [] && b != [] && a[0] == b[0] {
      CompareStringsAntisymmetric(a[1..], b[1..]);
    }
  }

  /** The order of two field values: by type, then by value. Arrays and
      maps are not ordered among themselves in this model. */
  function CompareValues(x: Value, y: Value): (r: int)
    ensures r == -1 || r == 0 || r == 1
    ensures TypeRank(x) < TypeRank(y) ==> r == -1
    ensures x.Num? && y.Num? ==> (r < 0 <==> x.n < y.n)
  {
    if TypeRank(x) != TypeRank(y) then Sign(TypeRank(x) - TypeRank(y))
    else
      match (x, y)
      case (Bool(a), Bool(b)) => Sign((if a then 1 else 0) - (if b then 1 else 0))
      case (NaN, Num(_)) => -1
      case (Num(_), NaN) => 1
      case (Num(a), Num(b)) => Sign(a - b)
      case (Str(a), Str(b)) => CompareStrings(a, b)
      case _ => 0
  }

  lemma CompareValuesAntisymmetric(x: Value, y: Value)
    ensures CompareValues(y, x) == -CompareValues(x, y)
  {
    if x.Str? && y.Str? {
      CompareStringsAntisymmetric(x.s, y.s);
    }
  }

  /** The sort key of a document: the ordering field, or nothing for a
      query without an ordering (document-id order). */
  function Key(d: Doc, field: Option<string>): Value
  {
    match field
    case None => Null
    case Some(f) => Get(d.data, f)
  }

  /** Two documents in ascending order: by key, then by id. */
  function CompareDocs(a: Doc, b: Doc, field: Option<string>): (r: int)
    ensures r == -1 || r == 0 || r == 1
  {
    var c := CompareValues(Key(a, field), Key(b, field));
    if c != 0 then c else CompareStrings(a.id, b.id)
  }

  lemma CompareDocsAntisymmetric(a: Doc, b: Doc, field: Option<string>)
    ensures CompareDocs(b, a, field) == -CompareDocs(a, b, field)
  {
    CompareValuesAntisymmetric(Key(a, field), Key(b, field));
    CompareStringsAntisymmetric(a.id, b.id);
  }

  predicate InOrder(a: Doc, b: Doc, field: Option<string>, descending: bool)
  {
    if descending then CompareDocs(a, b, field) >= 0 else CompareDocs(a, b, field) <= 0
  }

  predicate Sorted(s: seq<Doc>, field: Option<string>, descending: bool)
  {
    forall i :: 0 < i < |s| ==> InOrder(s[i - 1], s[i], field, descending)
  }

  function Insert(x: Doc, s: seq<Doc>, field: Option<string>, descending: bool): (r: seq<Doc>)
    requires Sorted(s, field, descending)
    ensures Sorted(r, field, descending)
    ensures multiset(r) == multiset(s) + multiset{x}
    ensures r[0] == x || (s != [] && r[0] == s[0])
  {
    if s == [] then [x]
    else if InOrder(x, s[0], field, descending) then
      ConsSorted(x, s, field, descending);
      [x] + s
    else
      CompareDocsAntisymmetric(x, s[0], field);
      SortedTail(s, field, descending);
      var rest := Insert(x, s[1..], field, descending);
      ConsSorted(s[0], rest, field, descending);
      assert s == [s[0]] + s[1..];
      [s[0]] + rest
  }

  /** A document in order with the head of a sorted list can go in front. */
  lemma ConsSorted(x: Doc, s: seq<Doc>, field: Option<string>, descending: bool)
    requires Sorted(s, field, descending)
    requires s != [] ==> InOrder(x, s[0], field, descending)
    ensures Sorted([x] + s, field, descending)
  {
    var r := [x] + s;
    forall i | 1 < i < |r| ensures InOrder(r[i - 1], r[i], field, descending) {
      assert r[i - 1] == s[i - 2] && r[i] == s[i - 1];
    }
  }

  lemma SortedTail(s: seq<Doc>, field: Option<string>, descending: bool)
    requires s != [] && Sorted(s, field, descending)
    ensures Sorted(s[1..], field, descending)
  {
    forall i | 0 < i < |s[1..]| ensures InOrder(s[1..][i - 1], s[1..][i], field, descending) {
      assert s[1..][i - 1] == s[i] && s[1..][i] == s[i + 1];
    }
  }

  /** The documents in the query's order. */
  function Sort(s: seq<Doc>, field: Option<string>, descending: bool): (r: seq<Doc>)
    ensures Sorted(r, field, descending)
    ensures multiset(r) == multiset(s)
  {
    if s == [] then []
    else
      assert s == [s[0]] + s[1..];
      Insert(s[0], Sort(s[1..], field, descending), field, descending)
  }

  // ------------------------------------------------------------- queries

  function FirstOrderBy(cs: seq<Constraint>): (r: Option<Constraint>)
    ensures r.Some? ==> r.value.OrderBy? && r.value in cs
    ensures r.None? ==> forall i :: 0 <= i < |cs| ==> !cs[i].OrderBy?
  {
    if cs == [] then None
    else if cs[0].OrderBy? then Some(cs[0])
    else FirstOrderBy(cs[1..])
  }

  function FirstLimit(cs: seq<Constraint>): (r: Option<Constraint>)
    ensures r.Some? ==> r.value.Limit? && r.value in cs
    ensures r.None? ==> forall i :: 0 <= i < |cs| ==> !cs[i].Limit?
  {
    if cs == [] then None
    else if cs[0].Limit? then Some(cs[0])
    else FirstLimit(cs[1..])
  }

  /** The ordering a query asks for: the field, or none, and whether it
      descends. A field path that is not text or a direction other than
      `asc` and `desc` is refused. */
  function Ordering(cs: seq<Constraint>): Result<(Option<string>, bool)>
  {
    match FirstOrderBy(cs)
    case None => Success((None, false))
    case Some(OrderBy(path, direction)) =>
      if !path.Str? || path.s == [] then Failure("Function orderBy() called with invalid data")
      else if direction == Str("asc") then Success((Some(path.s), false))
      else if direction == Str("desc") then Success((Some(path.s), true))
      else Failure("Function orderBy() called with invalid direction")
  }

  function HasField(field: Option<string>): Doc -> bool
  {
    (d: Doc) => field.None? || field.value in d.data
  }

  predicate ValidLimit(cs: seq<Constraint>)
  {
    FirstLimit(cs).None? || (FirstLimit(cs).value.count.Num? && FirstLimit(cs).value.count.n > 0)
  }

  /** A query the store accepts: no filter on `undefined`, a valid
      ordering, a positive whole-number limit. */
  predicate ValidQuery(cs: seq<Constraint>)
  {
    !HasUndefinedFilter(cs) && Ordering(cs).Success? && ValidLimit(cs)
  }

  /** Every document satisfying the filters and having the ordering field,
      in the query's order. */
  function Matching(docs: seq<Doc>, cs: seq<Constraint>): seq<Doc>
    requires Ordering(cs).Success?
  {
    var field := Ordering(cs).value.0;
    Sort(Filter(Filter(docs, Matcher(cs)), HasField(field)), field, Ordering(cs).value.1)
  }

  /** `getDocs(query(collection, ...constraints))`. */
  function RunQuery(docs: seq<Doc>, cs: seq<Constraint>): (r: Result<seq<Doc>>)
    ensures r.Failure? <==> !ValidQuery(cs)
    ensures r.Success? ==> r.value <= Matching(docs, cs)
    ensures r.Success? && FirstLimit(cs).None? ==> r.value == Matching(docs, cs)
    ensures r.Success? && FirstLimit(cs).Some? ==>
      var n, m := FirstLimit(cs).value.count.n, |Matching(docs, cs)|;
      |r.value| == if n < m then n else m
  {
    if HasUndefinedFilter(cs) then Failure("Function where() called with invalid data. Unsupported field value: undefined")
    else if Ordering(cs).Failure? then Failure(Ordering(cs).message)
    else if !ValidLimit(cs) then Failure("Function limit() requires a positive number")
    else if FirstLimit(cs).None? then Success(Matching(docs, cs))
    else Success(Take(Matching(docs, cs), FirstLimit(cs).value.count.n))
  }

  lemma FromFilters(docs: seq<Doc>, cs: seq<Constraint>, field: Option<string>, d: Doc)
    requires d in Filter(Filter(docs, Matcher(cs)), HasField(field))
    ensures d in docs && SatisfiesAll(d.data, cs)
  {
    FilterMembership(Filter(docs, Matcher(cs)), HasField(field), d);
    FilterMembership(docs, Matcher(cs), d);
  }

  /** A document is among the matches exactly when it is stored, satisfies
      every filter and has the ordering field; the matches are in order. */
  lemma {:induction false} MatchingExact(docs: seq<Doc>, cs: seq<Constraint>, d: Doc)
    requires Ordering(cs).Success?
    ensures var field := Ordering(cs).value.0;
      d in Matching(docs, cs) <==> d in docs && SatisfiesAll(d.data, cs) && (field.None? || field.value in d.data)
    ensures Sorted(Matching(docs, cs), Ordering(cs).value.0, Ordering(cs).value.1)
  {
    var field := Ordering(cs).value.0;
    var once := Filter(docs, Matcher(cs));
    var sorted := Matching(docs, cs);
    assert d in sorted <==> d in multiset(sorted);
    FilterMembership(once, HasField(field), d);
    FilterMembership(docs, Matcher(cs), d);
  }

  /** What a query returns: stored documents that satisfy every filter, in
      the query's order. */
  lemma RunQuerySound(docs: seq<Doc>, cs: seq<Constraint>)
    requires RunQuery(docs, cs).Success?
    ensures forall d :: d in RunQuery(docs, cs).value ==>
      d in docs && SatisfiesAll(d.data, cs) && (Ordering(cs).value.0.None? || Ordering(cs).value.0.value in d.data)
    ensures Sorted(RunQuery(docs, cs).value, Ordering(cs).value.0, Ordering(cs).value.1)
  {
    var r := RunQuery(docs, cs).value;
    var m := Matching(docs, cs);
    forall d | d in r
      ensures d in docs && SatisfiesAll(d.data, cs) && (Ordering(cs).value.0.None? || Ordering(cs).value.0.value in d.data)
    {
      assert d in m;
      MatchingExact(docs, cs, d);
    }
    MatchingExact(docs, cs, Doc([], map[]));
    assert forall i :: 0 <= i < |r| ==> r[i] == m[i];
  }

  /** Every stored document that satisfies the filters and has the
      ordering field is returned, unless the limit has already been
      reached by documents before it in the query's order. */
  lemma RunQueryComplete(docs: seq<Doc>, cs: seq<Constraint>, d: Doc)
    requires RunQuery(docs, cs).Success?
    requires d in docs && SatisfiesAll(d.data, cs)
    requires Ordering(cs).value.0.None? || Ordering(cs).value.0.value in d.data
    ensures d in RunQuery(docs, cs).value
      || (FirstLimit(cs).Some? && |RunQuery(docs, cs).value| == FirstLimit(cs).value.count.n)
  {
    var m := Matching(docs, cs);
    var r := RunQuery(docs, cs).value;
    MatchingExact(docs, cs, d);
    if FirstLimit(cs).Some? && |r| != FirstLimit(cs).value.count.n {
      assert |r| == |m|;
      assert r == m[..|r|];
      assert m[..|m|] == m;
    }
  }

  /** Without a limit, the query returns as many documents as match. */
  lemma MatchingLength(docs: seq<Doc>, cs: seq<Constraint>)
    requires Ordering(cs).Success?
    ensures |Matching(docs, cs)| == |Filter(Filter(docs, Matcher(cs)), HasField(Ordering(cs).value.0))|
  {
    var field := Ordering(cs).value.0;
    var matched := Filter(Filter(docs, Matcher(cs)), HasField(field));
    assert |multiset(Matching(docs, cs))| == |multiset(matched)|;
  }

  /** A matching document that has the ordering field makes an accepted
      query non-empty, whatever its limit. */
  lemma RunQueryNonEmpty(docs: seq<Doc>, cs: seq<Constraint>, d: Doc)
    requires RunQuery(docs, cs).Success?
    requires d in docs && SatisfiesAll(d.data, cs)
    requires Ordering(cs).value.0.None? || Ordering(cs).value.0.value in d.data
    ensures RunQuery(docs, cs).value != []
  {
    MatchingExact(docs, cs, d);
  }

  /** The store after `updateDoc(id, changes)`: the named document gets the
      changed fields, every other document stays as it was. */
  function Merge(store: seq<Doc>, id: string, changes: Record): (r: seq<Doc>)
    ensures |r| == |store|
    ensures forall i :: 0 <= i < |r| ==> r[i].id == store[i].id
    ensures forall i :: 0 <= i < |r| && store[i].id != id ==> r[i] == store[i]
    ensures forall i :: 0 <= i < |r| && store[i].id == id ==> r[i].data == store[i].data + changes
  {
    seq(|store|, i requires 0 <= i < |store| => if store[i].id == id then Doc(id, store[i].data + changes) else store[i])
  }

  /** The store after `deleteDoc(id)`: every other document stays, in
      order. Deleting a missing document changes nothing. */
  function Delete(store: seq<Doc>, id: string): (r: seq<Doc>)
    ensures forall d :: d in r <==> d in store && d.id != id
    ensures IsSubsequence(r, store)
  {
    FilterIsSubsequence(store, (d: Doc) => d.id != id);
    FilterMembershipAll(store, id);
    Filter(store, (d: Doc) => d.id != id)
  }

  lemma FilterMembershipAll(store: seq<Doc>, id: string)
    ensures forall d :: d in Filter(store, (e: Doc) => e.id != id) <==> d in store && d.id != id
  {
    forall d {
      FilterMembership(store, (e: Doc) => e.id != id, d);
    }
  }

  /** A document id's first matching document. */
  function FindById(docs: seq<Doc>, id: string): (r: Option<Doc>)
    ensures r.Some? ==> r.value in docs && r.value.id == id
    ensures r.None? ==> forall i :: 0 <= i < |docs| ==> docs[i].id != id
  {
    if docs == [] then None
    else if docs[0].id == id then Some(docs[0])
    else FindById(docs[1..], id)
  }
}
