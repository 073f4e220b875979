/** The admin review moderation page: the status tabs with their counts,
    the list they select, the moderation buttons each review offers, and
    the rows of the CSV export. */
module StoreReviewsPage {
  import opened Seqs
  import opened Text
  import opened Js
  import opened Constants
  import Helpers

  /** The tab test: `r.status === statusFilter`. */
  function HasStatus(statusFilter: string): Record -> bool
  {
    (r: Record) => Get(r, "status") == Str(statusFilter)
  }

  /** `filterReviews()`: the whole list under "all", otherwise the reviews
      of exactly the chosen status, in loaded order. */
  function FilterReviews(reviews: seq<Record>, statusFilter: string): (r: seq<Record>)
    ensures statusFilter == "all" ==> r == reviews
    ensures IsSubsequence(r, reviews)
  {
    FilterIsSubsequence(reviews, HasStatus(statusFilter));
    SubsequenceReflexive(reviews);
    if statusFilter == "all" then reviews else Filter(reviews, HasStatus(statusFilter))
  }

  lemma FilterReviewsMembership(reviews: seq<Record>, statusFilter: string, r: Record)
    requires statusFilter != "all"
    ensures r in FilterReviews(reviews, statusFilter) <==> r in reviews && Get(r, "status") == Str(statusFilter)
  {
    FilterMembership(reviews, HasStatus(statusFilter), r);
  }

  /** The number on a status tab, counted over the full list. */
  function TabCount(reviews: seq<Record>, s: ReviewStatus): nat
  {
    Count(reviews, HasStatus(s.Name()))
  }

  /** Each tab's number is the length of the list that tab shows, and at
      most the "All" number. */
  lemma TabCountSpec(reviews: seq<Record>, s: ReviewStatus)
    ensures TabCount(reviews, s) == |FilterReviews(reviews, s.Name())|
    ensures TabCount(reviews, s) <= |reviews|
  {
  }

  /** The three status tabs together never count more than "All"; reviews
      with a status outside the three are counted only under "All". */
  lemma {:induction false} TabCountsTotal(reviews: seq<Record>)
    ensures TabCount(reviews, Pending) + TabCount(reviews, Approved) + TabCount(reviews, Rejected) <= |reviews|
  {
    if reviews != [] {
      TabCountsTotal(reviews[1..]);
      assert reviews == [reviews[0]] + reviews[1..];
      FilterAppend([reviews[0]], reviews[1..], HasStatus(Pending.Name()));
      FilterAppend([reviews[0]], reviews[1..], HasStatus(Approved.Name()));
      FilterAppend([reviews[0]], reviews[1..], HasStatus(Rejected.Name()));
    }
  }

  // ------------------------------------------------------------ actions

  datatype Action = Approve | Reject | Delete

  /** The buttons under a review: Approve unless already Approved, Reject
      unless already Rejected, Delete always. */
  function Actions(status: Value): (r: seq<Action>)
  {
    (if status != Str(Approved.Name()) then [Approve] else [])
    + (if status != Str(Rejected.Name()) then [Reject] else [])
    + [Delete]
  }

  lemma ActionsSpec(status: Value)
    ensures Approve in Actions(status) <==> status != Str(Approved.Name())
    ensures Reject in Actions(status) <==> status != Str(Rejected.Name())
    ensures Delete in Actions(status)
    ensures status == Str(Pending.Name()) ==> Actions(status) == [Approve, Reject, Delete]
  {
  }

  // --------------------------------------------------------------- export

  /** The columns of the CSV export, in order. */
  const CSV_COLUMNS: seq<string> := ["Customer", "Rating", "Title", "Comment", "Status", "Date"]

  /** One export row; `formatDate` is the date formatter, which is outside
      this model. */
  function CsvRow(review: Record, formatDate: Value -> string): Helpers.Row
  {
    [ ("Customer", Get(review, "customerName")),
      ("Rating", Get(review, "rating")),
      ("Title", Get(review, "title")),
      ("Comment", Get(review, "comment")),
      ("Status", Get(review, "status")),
      ("Date", Str(formatDate(Get(review, "createdAt")))) ]
  }

  /** The rows `handleExportCSV()` hands to the CSV writer. */
  function ExportRows(filtered: seq<Record>, formatDate: Value -> string): (rows: seq<Helpers.Row>)
    ensures |rows| == |filtered|
    ensures forall i :: 0 <= i < |rows| ==> rows[i] == CsvRow(filtered[i], formatDate)
  {
    seq(|filtered|, i requires 0 <= i < |filtered| => CsvRow(filtered[i], formatDate))
  }

  /** The export covers exactly the shown list: one row per shown review,
      each with the six columns in order, each cell the review's field. */
  lemma ExportRowsSpec(filtered: seq<Record>, formatDate: Value -> string, i: int)
    requires 0 <= i < |filtered|
    ensures var row := ExportRows(filtered, formatDate)[i];
      && Helpers.Headers(row) == CSV_COLUMNS
      && Helpers.Lookup(row, "Customer") == Get(filtered[i], "customerName")
      && Helpers.Lookup(row, "Rating") == Get(filtered[i], "rating")
      && Helpers.Lookup(row, "Status") == Get(filtered[i], "status")
      && Helpers.Lookup(row, "Date") == Str(formatDate(Get(filtered[i], "createdAt")))
  {
    var row := ExportRows(filtered, formatDate)[i];
    assert row == CsvRow(filtered[i], formatDate);
    assert Helpers.Headers(row) == CSV_COLUMNS;
    Helpers.LookupFirst(row, "Status", 4);
    Helpers.LookupFirst(row, "Date", 5);
  }
}
