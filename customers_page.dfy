/** The admin customer list: a status selector and a search box over the
    loaded customers, the warranty badge shown beside each Active customer,
    and the status selector offered on each row. */
module CustomersPage {
  import opened Wrappers
  import opened Seqs
  import opened Text
  import opened Js
  import opened Constants
  import Helpers
  import CustomerService

  function Steps(searchTerm: string, statusFilter: string): seq<Step<Record>>
  {
    [ Step(statusFilter != "all", (c: Record) => Get(c, "status") == Str(statusFilter)),
      Step(searchTerm != [], (c: Record) => CustomerService.CustomerMatches(c, Lower(searchTerm))) ]
  }

  function Shown(customers: seq<Record>, searchTerm: string, statusFilter: string): seq<Record>
  {
    Pipeline(customers, Steps(searchTerm, statusFilter))
  }

  /** `filterCustomers()`. */
  method FilterCustomers(customers: seq<Record>, searchTerm: string, statusFilter: string) returns (filtered: seq<Record>)
    ensures filtered == Shown(customers, searchTerm, statusFilter)
  {
    ghost var steps := Steps(searchTerm, statusFilter);
    filtered := customers;
    PipelineStart(customers, steps);
    ghost var prev := filtered;
    if statusFilter != "all" {
      filtered := Filter(filtered, (c: Record) => Get(c, "status") == Str(statusFilter));
    }
    PipelineStep(customers, steps, 0, prev, (c: Record) => Get(c, "status") == Str(statusFilter), filtered);
    prev := filtered;
    if searchTerm != [] {
      var term := Lower(searchTerm);
      filtered := Filter(filtered, (c: Record) => CustomerService.CustomerMatches(c, term));
    }
    PipelineStep(customers, steps, 1, prev, (c: Record) => CustomerService.CustomerMatches(c, Lower(searchTerm)), filtered);
  }

  /** A customer is shown exactly when it was loaded, has the chosen
      status (unless "all"), and matches the search (when there is one) by
      the same rule the customer search service uses; the list keeps the
      loaded order and is stable under re-filtering. */
  lemma {:induction false} ShownExact(customers: seq<Record>, searchTerm: string, statusFilter: string, c: Record)
    ensures c in Shown(customers, searchTerm, statusFilter) <==>
      && c in customers
      && (statusFilter != "all" ==> Get(c, "status") == Str(statusFilter))
      && (searchTerm != [] ==> CustomerService.CustomerMatches(c, Lower(searchTerm)))
    ensures IsSubsequence(Shown(customers, searchTerm, statusFilter), customers)
    ensures Shown(Shown(customers, searchTerm, statusFilter), searchTerm, statusFilter) == Shown(customers, searchTerm, statusFilter)
  {
    var steps := Steps(searchTerm, statusFilter);
    PipelineMembership(customers, steps, c);
    PipelineOrderAndIdempotence(customers, steps);
    assert PassesFirst(steps, 1, c) <==> (statusFilter != "all" ==> Get(c, "status") == Str(statusFilter));
  }

  // ------------------------------------------------------------ badges

  datatype Badge = NoBadge | ExpiredBadge | ExpiringSoonBadge | ActiveBadge

  /** The date `daysUntil` sees: none for a falsy value (0 days), the
      instant for a valid date. A truthy value that is no valid date gives
      `NaN` days in the source, which like 0 days is neither expired nor
      expiring; it is none here too. */
  function EndInstant(warrantyEndDate: Value): Option<int>
  {
    if Truthy(warrantyEndDate) then TimeOf(warrantyEndDate) else None
  }

  /** `getWarrantyBadge(warrantyEndDate, status)`, with the default
      three-day threshold. */
  function WarrantyBadge(warrantyEndDate: Value, status: Value, now: int): (r: Badge)
    ensures r == NoBadge <==> status != Str(Active.Name())
    ensures status == Str(Active.Name()) && EndInstant(warrantyEndDate).None? ==> r == ActiveBadge
  {
    if status != Str(Active.Name()) then NoBadge
    else if Helpers.IsWarrantyExpired(EndInstant(warrantyEndDate), now) then ExpiredBadge
    else if Helpers.IsWarrantyExpiringSoon(EndInstant(warrantyEndDate), now, 3) then ExpiringSoonBadge
    else ActiveBadge
  }

  /** Only Active customers get a badge. For an Active customer with a
      valid end instant `e`: Expired once `e` is a whole day or more in the
      past, Expiring Soon while `e` is in the future by at most three days,
      Active otherwise, which includes the whole day after `e`. A customer
      without a valid end date shows Active. */
  lemma WarrantyBadgeSpec(warrantyEndDate: Value, status: Value, now: int)
    ensures var b := WarrantyBadge(warrantyEndDate, status, now);
      && (b == NoBadge <==> status != Str(Active.Name()))
      && (status == Str(Active.Name()) && EndInstant(warrantyEndDate).None? ==> b == ActiveBadge)
      && (status == Str(Active.Name()) && EndInstant(warrantyEndDate).Some? ==>
            var e := EndInstant(warrantyEndDate).value;
            && (b == ExpiredBadge <==> e - now <= -DAY_MS)
            && (b == ExpiringSoonBadge <==> 0 < e - now <= 3 * DAY_MS)
            && (b == ActiveBadge <==> -DAY_MS < e - now <= 0 || e - now > 3 * DAY_MS))
  {
    var date := EndInstant(warrantyEndDate);
    Helpers.WarrantyPredicatesDisjoint(date, now, 3);
  }

  // --------------------------------------------------- status selector

  /** The options of each row's status selector, in order. */
  const STATUS_OPTIONS: seq<string> := ["Active", "Warranty Expired", "Review Requested", "Completed"]

  /** Every customer is offered every status, whatever its current one:
      the selector lists the four status names in their declared order. */
  lemma StatusOptionsComplete(s: CustomerStatus)
    ensures s.Name() in STATUS_OPTIONS
    ensures |STATUS_OPTIONS| == |ALL_CUSTOMER_STATUSES|
    ensures forall i :: 0 <= i < |STATUS_OPTIONS| ==> STATUS_OPTIONS[i] == ALL_CUSTOMER_STATUSES[i].Name()
  {
  }
}
