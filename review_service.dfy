/** The store-review service over the `storeReviews` collection: listing by
    status, creation as Pending, moderation by status writes, deletion, and
    the public aggregates (the approved list, the mean rating and the
    per-star counts). */
module ReviewService {
  import opened Wrappers
  import opened Seqs
  import opened Text
  import opened Js
  import opened Constants
  import opened DocumentStore

  const NOT_FOUND := "Review not found"

  // ------------------------------------------------------------- reads

  function StatusClause(filters: Record): seq<Constraint>
  {
    if Truthy(Get(filters, "status")) then [WhereEq("status", Get(filters, "status"))] else []
  }

  function LimitClause(filters: Record): seq<Constraint>
  {
    if Truthy(Get(filters, "limit")) then [Limit(Get(filters, "limit"))] else []
  }

  /** The constraints `getReviews(filters)` pushes, in order. */
  function ReviewConstraints(filters: Record): seq<Constraint>
  {
    StatusClause(filters) + [OrderBy(Str("createdAt"), Str("desc"))] + LimitClause(filters)
  }

  /** The clause-pushing chain of `getReviews`. */
  method BuildReviewConstraints(filters: Record) returns (cs: seq<Constraint>)
    ensures cs == ReviewConstraints(filters)
  {
    cs := [];
    if Truthy(Get(filters, "status")) {
      cs := cs + [WhereEq("status", Get(filters, "status"))];
    }
    cs := cs + [OrderBy(Str("createdAt"), Str("desc"))];
    if Truthy(Get(filters, "limit")) {
      cs := cs + [Limit(Get(filters, "limit"))];
    }
  }

  /** The status filter of `getReviews`, when one is given. */
  predicate StatusMatches(filters: Record, data: Record)
  {
    Truthy(Get(filters, "status")) ==> Get(data, "status") == Get(filters, "status")
  }

  lemma ReviewQueryFacts(filters: Record)
    ensures var cs := ReviewConstraints(filters);
      && !HasUndefinedFilter(cs)
      && Ordering(cs) == Success((Some("createdAt"), true))
      && FirstLimit(cs) == (if Truthy(Get(filters, "limit")) then Some(Limit(Get(filters, "limit"))) else None)
      && forall data :: SatisfiesAll(data, cs) <==> StatusMatches(filters, data)
  {
    var cs := ReviewConstraints(filters);
    var order := OrderBy(Str("createdAt"), Str("desc"));
    var rest := [order] + LimitClause(filters);
    assert cs == StatusClause(filters) + rest;
    assert rest[0] == order;
    assert FirstOrderBy(rest) == Some(order);
    if Truthy(Get(filters, "status")) {
      assert cs[0] == WhereEq("status", Get(filters, "status")) && cs[1..] == rest;
      assert FirstLimit(cs) == FirstLimit(rest);
    }
    assert rest[1..] == LimitClause(filters);
    forall data ensures SatisfiesAll(data, cs) <==> SatisfiesAll(data, StatusClause(filters)) {
      SatisfiesAllAppend(data, StatusClause(filters), rest);
    }
  }

  /** Every stored review the query of `getReviews(filters)` selects,
      newest first: those that have `createdAt` and, when a status is asked
      for, exactly that status. */
  function ReviewMatches(store: seq<Doc>, filters: Record): (r: seq<Doc>)
    ensures forall d :: d in r <==> d in store && "createdAt" in d.data && StatusMatches(filters, d.data)
    ensures Sorted(r, Some("createdAt"), true)
  {
    ReviewQueryFacts(filters);
    var cs := ReviewConstraints(filters);
    forall d ensures d in Matching(store, cs) <==> d in store && "createdAt" in d.data && StatusMatches(filters, d.data) {
      MatchingExact(store, cs, d);
    }
    MatchingExact(store, cs, Doc([], map[]));
    Matching(store, cs)
  }

  /** `getReviews(filters)`: the first `limit` of the selected reviews,
      newest first, or all of them when no limit is given; the store
      refuses a limit that is not a positive number. */
  function GetReviews(store: seq<Doc>, filters: Record): (r: Result<seq<Record>>)
    ensures r.Failure? <==> Truthy(Get(filters, "limit")) && !(Get(filters, "limit").Num? && Get(filters, "limit").n > 0)
    ensures r.Success? ==> var all := ReviewMatches(store, filters);
      && |r.value| == (if Truthy(Get(filters, "limit")) && Get(filters, "limit").n < |all| then Get(filters, "limit").n else |all|)
      && ListsFirst(r.value, all)
  {
    ReviewQueryFacts(filters);
    match RunQuery(store, ReviewConstraints(filters))
    case Failure(m) => Failure(m)
    case Success(docs) => Success(Snapshots(docs))
  }

  /** `r` is the snapshots of the first `|r|` documents of `all`. */
  predicate ListsFirst(r: seq<Record>, all: seq<Doc>)
  {
    |r| <= |all| && forall i :: 0 <= i < |r| ==> r[i] == Snapshot(all[i])
  }

  /** A stored review with `createdAt` and the asked-for status is listed,
      unless the list already holds `limit` newer ones. */
  lemma GetReviewsComplete(store: seq<Doc>, filters: Record, d: Doc)
    requires GetReviews(store, filters).Success?
    requires d in store && "createdAt" in d.data && StatusMatches(filters, d.data)
    ensures Snapshot(d) in GetReviews(store, filters).value
      || (Truthy(Get(filters, "limit")) && |GetReviews(store, filters).value| == Get(filters, "limit").n)
  {
    var all := ReviewMatches(store, filters);
    var r := GetReviews(store, filters).value;
    var k :| 0 <= k < |all| && all[k] == d;
    if k < |r| {
      assert r[k] == Snapshot(d);
    }
  }

  /** Every listed review is a stored review with `createdAt` and, when a
      status is asked for, exactly that status; the list is newest first. */
  lemma GetReviewsSound(store: seq<Doc>, filters: Record, i: int)
    requires GetReviews(store, filters).Success?
    requires 0 <= i < |GetReviews(store, filters).value|
    ensures var docs := RunQuery(store, ReviewConstraints(filters)).value;
      && GetReviews(store, filters).value[i] == Snapshot(docs[i])
      && docs[i] in store && "createdAt" in docs[i].data
      && (Truthy(Get(filters, "status")) ==> Get(docs[i].data, "status") == Get(filters, "status"))
      && Sorted(docs, Some("createdAt"), true)
  {
    ReviewQueryFacts(filters);
    RunQuerySound(store, ReviewConstraints(filters));
    var docs := RunQuery(store, ReviewConstraints(filters)).value;
    assert docs[i] in docs;
  }

  /** `getReview(id)`. */
  function GetReview(store: seq<Doc>, reviewId: string): (r: Result<Record>)
    ensures r.Failure? <==> forall d :: d in store ==> d.id != reviewId
    ensures r.Failure? ==> r.message == NOT_FOUND
    ensures r.Success? ==> exists d :: d in store && d.id == reviewId && r.value == Snapshot(d)
  {
    match FindById(store, reviewId)
    case None => Failure(NOT_FOUND)
    case Some(d) => Success(Snapshot(d))
  }

  // ------------------------------------------------------------ writes

  /** `createReview(data)`: stored as Pending whatever status the input
      carries, with the store's clock as `createdAt`. */
  function CreateReview(store: seq<Doc>, data: Record, newId: string, now: int): (r: (seq<Doc>, Record))
    ensures |r.0| == |store| + 1 && r.0[..|store|] == store && r.0[|store|].id == newId
    ensures var stored := r.0[|store|].data;
      && stored.Keys == data.Keys + {"status", "createdAt"}
      && stored["status"] == Str(Pending.Name())
      && stored["createdAt"] == Num(now)
      && forall k :: k in data && k != "status" && k != "createdAt" ==> stored[k] == data[k]
    ensures r.1 == Snapshot(r.0[|store|])
  {
    var stored := Doc(newId, data["status" := Str(Pending.Name())]["createdAt" := Num(now)]);
    (store + [stored], Snapshot(stored))
  }

  /** `updateReview(id, data)`: the fields are merged into the stored
      review; updating a missing review fails in the store. */
  function UpdateReview(store: seq<Doc>, reviewId: string, data: Record): (r: Result<(seq<Doc>, Record)>)
    ensures r.Failure? <==> forall d :: d in store ==> d.id != reviewId
    ensures r.Success? ==> r.value.0 == Merge(store, reviewId, data)
    ensures r.Success? ==> r.value.1 == map["id" := Str(reviewId)] + data
  {
    if FindById(store, reviewId).None? then Failure("No document to update: storeReviews/" + reviewId)
    else Success((Merge(store, reviewId, data), map["id" := Str(reviewId)] + data))
  }

  /** `approveReview(id)` and `rejectReview(id)`: the moderation write sets
      only the status, from any current status. */
  function SetStatus(store: seq<Doc>, reviewId: string, status: ReviewStatus): (r: Result<(seq<Doc>, Record)>)
  {
    UpdateReview(store, reviewId, map["status" := Str(status.Name())])
  }

  /** `approveReview(id)`: the review, in whatever status, becomes
      Approved; the other reviews are untouched. */
  function ApproveReview(store: seq<Doc>, reviewId: string): (r: Result<(seq<Doc>, Record)>)
    ensures r.Success? <==> exists d :: d in store && d.id == reviewId
    ensures r.Success? ==> |r.value.0| == |store| && forall i :: 0 <= i < |store| ==>
      if store[i].id == reviewId then r.value.0[i] == Doc(reviewId, store[i].data["status" := Str(Approved.Name())])
      else r.value.0[i] == store[i]
  {
    SetStatusSpec(store, reviewId, Approved);
    SetStatus(store, reviewId, Approved)
  }

  /** `rejectReview(id)`: the review, in whatever status, becomes
      Rejected; the other reviews are untouched. */
  function RejectReview(store: seq<Doc>, reviewId: string): (r: Result<(seq<Doc>, Record)>)
    ensures r.Success? <==> exists d :: d in store && d.id == reviewId
    ensures r.Success? ==> |r.value.0| == |store| && forall i :: 0 <= i < |store| ==>
      if store[i].id == reviewId then r.value.0[i] == Doc(reviewId, store[i].data["status" := Str(Rejected.Name())])
      else r.value.0[i] == store[i]
  {
    SetStatusSpec(store, reviewId, Rejected);
    SetStatus(store, reviewId, Rejected)
  }

  /** A moderation write succeeds for any stored review whatever its
      status, sets that review's status and nothing else, and leaves every
      other review alone. */
  lemma SetStatusSpec(store: seq<Doc>, reviewId: string, status: ReviewStatus)
    ensures var r := SetStatus(store, reviewId, status);
      && (r.Success? <==> exists d :: d in store && d.id == reviewId)
      && (r.Success? ==> |r.value.0| == |store| && forall i :: 0 <= i < |store| ==>
            r.value.0[i].id == store[i].id
            && (store[i].id == reviewId ==> r.value.0[i].data == store[i].data["status" := Str(status.Name())])
            && (store[i].id != reviewId ==> r.value.0[i] == store[i]))
  {
    var changes := map["status" := Str(status.Name())];
    forall data: Record ensures data + changes == data["status" := Str(status.Name())] {
    }
  }

  /** `deleteReview(id)`: available in every status; the result is `true`. */
  function DeleteReview(store: seq<Doc>, reviewId: string): (r: (seq<Doc>, bool))
    ensures r.1
    ensures forall d :: d in r.0 <==> d in store && d.id != reviewId
  {
    (Delete(store, reviewId), true)
  }

  // -------------------------------------------------------- aggregates

  /** `getApprovedReviews(limitCount)`, the count defaulting to 10. A count
      of 0 is falsy, so it asks for no limit at all. */
  function GetApprovedReviews(store: seq<Doc>, limitCount: Value): (r: Result<seq<Record>>)
    ensures r.Failure? <==> Truthy(limitCount) && !(limitCount.Num? && limitCount.n > 0)
    ensures r.Success? ==> var all := ReviewMatches(store, ApprovedFilters(DefaultCount(limitCount)));
      && ListsFirst(r.value, all)
      && (limitCount == Undefined ==> |r.value| == if 10 < |all| then 10 else |all|)
      && (limitCount.Num? && limitCount.n > 0 ==> |r.value| == if limitCount.n < |all| then limitCount.n else |all|)
      && (limitCount != Undefined && !Truthy(limitCount) ==> |r.value| == |all|)
  {
    ApprovedFiltersFacts(DefaultCount(limitCount));
    GetReviews(store, ApprovedFilters(DefaultCount(limitCount)))
  }

  lemma ApprovedFiltersFacts(count: Value)
    ensures Get(ApprovedFilters(count), "limit") == count
    ensures Get(ApprovedFilters(count), "status") == Str(Approved.Name())
  {
    assert "status" != "limit";
  }

  /** The destructuring default of `limitCount`. */
  function DefaultCount(limitCount: Value): Value
  {
    if limitCount == Undefined then Num(10) else limitCount
  }

  /** The approved selection is the stored Approved reviews that have
      `createdAt`, whatever the count. */
  lemma ApprovedMatches(store: seq<Doc>, count: Value, d: Doc)
    ensures d in ReviewMatches(store, ApprovedFilters(count)) <==>
      d in store && "createdAt" in d.data && Get(d.data, "status") == Str(Approved.Name())
  {
    ApprovedFiltersFacts(count);
  }

  function ApprovedFilters(count: Value): Record
  {
    map["status" := Str(Approved.Name()), "limit" := count]
  }

  /** The approved list holds only Approved reviews, newest first. */
  lemma ApprovedReviewsSound(store: seq<Doc>, limitCount: Value, i: int)
    requires GetApprovedReviews(store, limitCount).Success?
    requires 0 <= i < |GetApprovedReviews(store, limitCount).value|
    ensures Get(GetApprovedReviews(store, limitCount).value[i], "status") == Str(Approved.Name())
  {
    var filters := ApprovedFilters(DefaultCount(limitCount));
    var all := ReviewMatches(store, filters);
    var d := all[i];
    ApprovedMatches(store, DefaultCount(limitCount), d);
    assert GetApprovedReviews(store, limitCount).value[i] == Snapshot(d);
    assert Snapshot(d)["status"] == d.data["status"];
  }

  /** Every stored Approved review with `createdAt` is in the approved
      list, unless the list already holds the count of newer ones. */
  lemma ApprovedReviewsComplete(store: seq<Doc>, limitCount: Value, d: Doc)
    requires GetApprovedReviews(store, limitCount).Success?
    requires d in store && "createdAt" in d.data && Get(d.data, "status") == Str(Approved.Name())
    ensures var r := GetApprovedReviews(store, limitCount).value;
      Snapshot(d) in r || (Truthy(DefaultCount(limitCount)) && |r| == DefaultCount(limitCount).n)
  {
    var count := DefaultCount(limitCount);
    ApprovedMatches(store, count, d);
    ApprovedFiltersFacts(count);
    var all := ReviewMatches(store, ApprovedFilters(count));
    var r := GetApprovedReviews(store, limitCount).value;
    var k :| 0 <= k < |all| && all[k] == d;
    if k < |r| {
      assert r[k] == Snapshot(d);
    }
  }

  /** `review.rating || 0`: a falsy rating counts as 0; a truthy rating that
      is not a number is counted as 0 in this model. */
  function RatingOrZero(review: Record): int
  {
    var v := Get(review, "rating");
    if Truthy(v) && v.Num? then v.n else 0
  }

  /** The running sum of the `reduce`. */
  function SumRatings(reviews: seq<Record>): int
  {
    if reviews == [] then 0 else SumRatings(reviews[..|reviews| - 1]) + RatingOrZero(reviews[|reviews| - 1])
  }

  lemma {:induction false} SumRatingsAppend(a: seq<Record>, b: seq<Record>)
    ensures SumRatings(a + b) == SumRatings(a) + SumRatings(b)
  {
    if b != [] {
      SumRatingsAppend(a, b[..|b| - 1]);
      assert (a + b)[..|a + b| - 1] == a + b[..|b| - 1];
    } else {
      assert a + b == a;
    }
  }

  /** When every rating lies in 1..5, the sum lies between the count and
      five times the count. */
  lemma {:induction false} SumRatingsBounds(reviews: seq<Record>)
    requires forall i :: 0 <= i < |reviews| ==> 1 <= RatingOrZero(reviews[i]) <= 5
    ensures |reviews| <= SumRatings(reviews) <= 5 * |reviews|
  {
    if reviews != [] {
      SumRatingsBounds(reviews[..|reviews| - 1]);
    }
  }

  /** The mean rating as an exact fraction: no reviews, or the sum over the
      count. */
  datatype Average = NoReviews | Mean(sum: int, count: nat)

  /** The reviews `getAverageRating()` reads: every Approved review. */
  function ApprovedList(store: seq<Doc>): (r: seq<Record>)
    ensures forall i :: 0 <= i < |r| ==> Get(r[i], "status") == Str(Approved.Name())
  {
    ReviewQueryFacts(ApprovedOnly());
    var r := GetReviews(store, ApprovedOnly()).value;
    forall i | 0 <= i < |r| ensures Get(r[i], "status") == Str(Approved.Name()) {
      GetReviewsSound(store, ApprovedOnly(), i);
    }
    r
  }

  function ApprovedOnly(): Record
  {
    map["status" := Str(Approved.Name())]
  }

  /** `getAverageRating()` before the one-decimal formatting. */
  function GetAverageRating(store: seq<Doc>): (r: Average)
    ensures r.Mean? <==> |ApprovedList(store)| > 0
    ensures r.Mean? ==> r.count == |ApprovedList(store)| && r.sum == SumRatings(ApprovedList(store))
  {
    var reviews := ApprovedList(store);
    if |reviews| == 0 then NoReviews else Mean(SumRatings(reviews), |reviews|)
  }

  /** With ratings in 1..5 the mean lies in 1..5. */
  lemma AverageBounds(store: seq<Doc>)
    requires forall i :: 0 <= i < |ApprovedList(store)| ==> 1 <= RatingOrZero(ApprovedList(store)[i]) <= 5
    ensures var r := GetAverageRating(store);
      r.Mean? ==> r.count <= r.sum <= 5 * r.count
  {
    SumRatingsBounds(ApprovedList(store));
  }

  /** The star a review is counted under by `getReviewsCountByRating()`: a
      rating between 1 and 5 whose text is one of the keys "1".."5"; a
      rating outside 1..5 is not counted. */
  function Bucket(review: Record): (r: Option<int>)
    ensures r.Some? ==> 1 <= r.value <= 5 && Numeric(Get(review, "rating")) == Some(r.value)
    ensures Get(review, "rating").Num? && 1 <= Get(review, "rating").n <= 5 ==> r == Some(Get(review, "rating").n)
    ensures !(AtLeast(Get(review, "rating"), 1) && AtMost(Get(review, "rating"), 5)) ==> r.None?
  {
    var v := Get(review, "rating");
    if AtLeast(v, 1) && AtMost(v, 5) && ToStr(v) == IntToString(Numeric(v).value) then Some(Numeric(v).value)
    else None
  }

  /** The star of each review, in order. */
  function Stars(reviews: seq<Record>): (r: seq<Option<int>>)
    ensures |r| == |reviews|
    ensures forall i :: 0 <= i < |r| ==> r[i] == Bucket(reviews[i])
  {
    seq(|reviews|, i requires 0 <= i < |reviews| => Bucket(reviews[i]))
  }

  /** How many of the stars `stars` are `k`. */
  function StarCount(stars: seq<Option<int>>, k: int): nat
  {
    if stars == [] then 0
    else StarCount(stars[..|stars| - 1], k) + (if stars[|stars| - 1] == Some(k) then 1 else 0)
  }

  lemma StarCountStep(stars: seq<Option<int>>, i: int)
    requires 0 <= i < |stars|
    ensures forall k :: StarCount(stars[..i + 1], k) == StarCount(stars[..i], k) + (if stars[i] == Some(k) then 1 else 0)
  {
    assert stars[..i + 1][..i] == stars[..i];
  }

  /** How many reviews are counted under some star. */
  function RatedCount(stars: seq<Option<int>>): nat
  {
    if stars == [] then 0
    else RatedCount(stars[..|stars| - 1]) + (if stars[|stars| - 1].Some? then 1 else 0)
  }

  /** `getReviewsCountByRating()`: the number of Approved reviews under
      each of the stars 1 to 5, every star present even when it is 0. */
  method GetReviewsCountByRating(store: seq<Doc>) returns (counts: map<int, nat>)
    ensures counts.Keys == {1, 2, 3, 4, 5}
    ensures forall k :: k in counts ==> counts[k] == StarCount(Stars(ApprovedList(store)), k)
  {
    counts := CountByRating(ApprovedList(store));
  }

  /** The `forEach` tally over the fetched reviews. */
  method CountByRating(reviews: seq<Record>) returns (counts: map<int, nat>)
    ensures counts.Keys == {1, 2, 3, 4, 5}
    ensures forall k :: k in counts ==> counts[k] == StarCount(Stars(reviews), k)
  {
    ghost var stars := Stars(reviews);
    counts := map[1 := 0, 2 := 0, 3 := 0, 4 := 0, 5 := 0];
    var i := 0;
    while i < |reviews|
      invariant 0 <= i <= |reviews|
      invariant forall k :: k in counts <==> 1 <= k <= 5
      invariant forall k :: k in counts ==> counts[k] == StarCount(stars[..i], k)
    {
      var b := Bucket(reviews[i]);
      StarCountStep(stars, i);
      if b.Some? {
        counts := counts[b.value := counts[b.value] + 1];
      }
      i := i + 1;
    }
    assert stars[..i] == stars;
    OneToFive(counts.Keys);
  }

  lemma OneToFive(keys: set<int>)
    requires forall k :: k in keys <==> 1 <= k <= 5
    ensures keys == {1, 2, 3, 4, 5}
  {
    forall k ensures k in keys <==> k in {1, 2, 3, 4, 5} {
      if k in keys {
        assert k == 1 || k == 2 || k == 3 || k == 4 || k == 5;
      }
    }
  }

  /** The five counts add up to the number of reviews rated 1 to 5, which
      is at most the number of reviews. */
  lemma {:induction false} StarsTotal(stars: seq<Option<int>>)
    requires forall i :: 0 <= i < |stars| && stars[i].Some? ==> 1 <= stars[i].value <= 5
    ensures StarCount(stars, 1) + StarCount(stars, 2) + StarCount(stars, 3)
      + StarCount(stars, 4) + StarCount(stars, 5) == RatedCount(stars)
    ensures RatedCount(stars) <= |stars|
  {
    if stars != [] {
      StarsTotal(stars[..|stars| - 1]);
    }
  }

  /** The counts of `getReviewsCountByRating()` never add up to more than
      the Approved reviews. */
  lemma CountsTotal(store: seq<Doc>)
    ensures var stars := Stars(ApprovedList(store));
      StarCount(stars, 1) + StarCount(stars, 2) + StarCount(stars, 3) + StarCount(stars, 4) + StarCount(stars, 5)
      == RatedCount(stars) <= |ApprovedList(store)|
  {
    StarsTotal(Stars(ApprovedList(store)));
  }

  /** With every rating an integer from 1 to 5, every review is counted. */
  lemma {:induction false} AllRatedCounted(reviews: seq<Record>)
    requires forall i :: 0 <= i < |reviews| ==> Get(reviews[i], "rating").Num? && 1 <= Get(reviews[i], "rating").n <= 5
    ensures RatedCount(Stars(reviews)) == |reviews|
  {
    if reviews != [] {
      var init := reviews[..|reviews| - 1];
      AllRatedCounted(init);
      assert Stars(reviews)[..|reviews| - 1] == Stars(init);
    }
  }
}
