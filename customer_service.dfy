/** The customer service over the `customers` collection: the warranty end
    a purchase date implies, the records creation and updates store, the
    status-filtered listing, the expiring and expired selections, and
    search. Dates are milliseconds since the epoch. */
module CustomerService {
  import opened Wrappers
  import opened Seqs
  import opened Text
  import opened Js
  import opened Constants
  import opened DocumentStore
  import Helpers

  const NOT_FOUND := "Customer not found"
  const INVALID_TIME := "Invalid time value"
  const WARRANTY_MS: int := WARRANTY_PERIOD_DAYS * DAY_MS

  /** `calculateWarrantyEndDate(purchaseDate)`: fifteen whole days after the
      purchase instant. An invalid date, or an end past the representable
      range, makes `toISOString` throw. */
  function WarrantyEndDate(purchaseDate: Value): (r: Result<int>)
    ensures r.Success? <==> TimeOf(purchaseDate).Some? && TimeOf(purchaseDate).value + WARRANTY_MS <= MAX_TIME
    ensures r.Success? ==> r.value == TimeOf(purchaseDate).value + 15 * 86_400_000
    ensures r.Failure? ==> r.message == INVALID_TIME
  {
    match TimeOf(purchaseDate)
    case None => Failure(INVALID_TIME)
    case Some(t) =>
      var end := t + WARRANTY_MS;
      if end > MAX_TIME then Failure(INVALID_TIME) else Success(end)
  }

  // ------------------------------------------------------------- reads

  function CustomerConstraints(filters: Record): seq<Constraint>
  {
    (if Truthy(Get(filters, "status")) then [WhereEq("status", Get(filters, "status"))] else [])
    + [OrderBy(Str("purchaseDate"), Str("desc"))]
  }

  /** `getCustomers(filters)`: the customers, newest purchase first, of the
      given status when one is given. */
  function GetCustomers(store: seq<Doc>, filters: Record): (r: seq<Record>)
    ensures forall d :: d in store && "purchaseDate" in d.data && StatusSelected(filters, d.data) ==> Snapshot(d) in r
    ensures forall i :: 0 <= i < |r| ==>
      exists d :: d in store && "purchaseDate" in d.data && StatusSelected(filters, d.data) && r[i] == Snapshot(d)
  {
    CustomerQueryValid(filters);
    var docs := RunQuery(store, CustomerConstraints(filters)).value;
    forall d | d in store && "purchaseDate" in d.data && StatusSelected(filters, d.data)
      ensures Snapshot(d) in Snapshots(docs)
    {
      GetCustomersExact(store, filters, d);
      var k :| 0 <= k < |docs| && docs[k] == d;
      assert Snapshots(docs)[k] == Snapshot(d);
    }
    forall i | 0 <= i < |docs|
      ensures exists d :: d in store && "purchaseDate" in d.data && StatusSelected(filters, d.data) && Snapshots(docs)[i] == Snapshot(d)
    {
      assert docs[i] in docs;
      GetCustomersExact(store, filters, docs[i]);
    }
    Snapshots(docs)
  }

  /** The status test of `getCustomers`, when a status is given. */
  predicate StatusSelected(filters: Record, data: Record)
  {
    Truthy(Get(filters, "status")) ==> Get(data, "status") == Get(filters, "status")
  }

  lemma CustomerQueryValid(filters: Record)
    ensures ValidQuery(CustomerConstraints(filters))
    ensures Ordering(CustomerConstraints(filters)) == Success((Some("purchaseDate"), true))
    ensures FirstLimit(CustomerConstraints(filters)) == None
    ensures forall data :: SatisfiesAll(data, CustomerConstraints(filters)) <==>
      (Truthy(Get(filters, "status")) ==> Get(data, "status") == Get(filters, "status"))
  {
    var cs := CustomerConstraints(filters);
    if Truthy(Get(filters, "status")) {
      assert cs == [WhereEq("status", Get(filters, "status")), OrderBy(Str("purchaseDate"), Str("desc"))];
      assert cs[1..] == [OrderBy(Str("purchaseDate"), Str("desc"))];
      assert FirstOrderBy(cs[1..]) == Some(OrderBy(Str("purchaseDate"), Str("desc")));
    } else {
      assert cs == [OrderBy(Str("purchaseDate"), Str("desc"))];
    }
  }

  /** A customer is listed exactly when it is stored with a purchase date
      and, when a status is asked for, has exactly that status; the list is
      ordered by purchase date, newest first. */
  lemma GetCustomersExact(store: seq<Doc>, filters: Record, d: Doc)
    ensures d in RunQuery(store, CustomerConstraints(filters)).value <==>
      d in store && "purchaseDate" in d.data && StatusSelected(filters, d.data)
    ensures Sorted(RunQuery(store, CustomerConstraints(filters)).value, Some("purchaseDate"), true)
  {
    CustomerQueryValid(filters);
    MatchingExact(store, CustomerConstraints(filters), d);
  }

  /** `getCustomer(id)`. */
  function GetCustomer(store: seq<Doc>, customerId: string): (r: Result<Record>)
    ensures r.Failure? <==> forall d :: d in store ==> d.id != customerId
    ensures r.Failure? ==> r.message == NOT_FOUND
    ensures r.Success? ==> exists d :: d in store && d.id == customerId && r.value == Snapshot(d)
  {
    match FindById(store, customerId)
    case None => Failure(NOT_FOUND)
    case Some(d) => Success(Snapshot(d))
  }

  // ------------------------------------------------------------ writes

  /** `createCustomer(data)`, with the id the store assigns and the store's
      clock as parameters. The status is always Active, whatever the input
      says. */
  function CreateCustomer(store: seq<Doc>, data: Record, newId: string, now: int): (r: Result<(seq<Doc>, Record)>)
    ensures r.Failure? <==> WarrantyEndDate(Get(data, "purchaseDate")).Failure?
    ensures r.Success? ==> |r.value.0| == |store| + 1 && r.value.0[..|store|] == store && r.value.0[|store|].id == newId
    ensures r.Success? ==> var stored := r.value.0[|store|].data;
      && stored.Keys == data.Keys + {"warrantyEndDate", "status", "createdAt", "updatedAt"}
      && stored["status"] == Str(Active.Name())
      && stored["warrantyEndDate"] == Num(WarrantyEndDate(Get(data, "purchaseDate")).value)
      && stored["createdAt"] == Num(now) && stored["updatedAt"] == Num(now)
      && (forall k :: k in data && k !in {"warrantyEndDate", "status", "createdAt", "updatedAt"} ==> stored[k] == data[k])
    ensures r.Success? ==> r.value.1 == Snapshot(r.value.0[|store|])
  {
    match WarrantyEndDate(Get(data, "purchaseDate"))
    case Failure(m) => Failure(m)
    case Success(end) =>
      var stored := Doc(newId, data["warrantyEndDate" := Num(end)]["status" := Str(Active.Name())]
        ["createdAt" := Num(now)]["updatedAt" := Num(now)]);
      Success((store + [stored], Snapshot(stored)))
  }

  /** `updateCustomer(id, data)`: the changes carry the new `updatedAt` and,
      when a purchase date is given, the recomputed warranty end. Updating a
      missing customer fails in the store. */
  method UpdateCustomer(store: seq<Doc>, customerId: string, data: Record, now: int)
    returns (r: Result<(seq<Doc>, Record)>)
    ensures r.Success? <==>
      (exists d :: d in store && d.id == customerId) && (Truthy(Get(data, "purchaseDate")) ==> WarrantyEndDate(Get(data, "purchaseDate")).Success?)
    ensures r.Success? ==>
      exists changes :: UpdateChanges(data, changes, now) && r.value.0 == Merge(store, customerId, changes) &&
                        r.value.1 == map["id" := Str(customerId)] + changes
  {
    var updateData := data["updatedAt" := Num(now)];
    if Truthy(Get(data, "purchaseDate")) {
      var end := WarrantyEndDate(Get(data, "purchaseDate"));
      if end.Failure? {
        return Failure(end.message);
      }
      updateData := updateData["warrantyEndDate" := Num(end.value)];
    }
    if FindById(store, customerId).None? {
      return Failure("No document to update: customers/" + customerId);
    }
    r := Success((Merge(store, customerId, updateData), map["id" := Str(customerId)] + updateData));
    assert UpdateChanges(data, updateData, now);
  }

  /** The fields `updateCustomer` writes: the given ones, a new `updatedAt`,
      and the recomputed warranty end only when a purchase date is given. */
  predicate UpdateChanges(data: Record, changes: Record, now: int)
  {
    var purchase := Get(data, "purchaseDate");
    && changes.Keys == data.Keys + {"updatedAt"} + (if Truthy(purchase) then {"warrantyEndDate"} else {})
    && changes["updatedAt"] == Num(now)
    && (Truthy(purchase) ==> WarrantyEndDate(purchase).Success? && changes["warrantyEndDate"] == Num(WarrantyEndDate(purchase).value))
    && (forall k :: k in data && k != "updatedAt" && (k == "warrantyEndDate" ==> !Truthy(purchase)) ==> changes[k] == data[k])
  }

  /** `updateCustomerStatus(id, status)`: any status may follow any other,
      and the warranty end is never touched. */
  method UpdateCustomerStatus(store: seq<Doc>, customerId: string, status: Value, now: int)
    returns (r: Result<(seq<Doc>, Record)>)
    ensures r.Success? <==> exists d :: d in store && d.id == customerId
    ensures r.Success? ==> |r.value.0| == |store|
    ensures r.Success? ==> forall i :: 0 <= i < |store| && store[i].id == customerId ==>
      && r.value.0[i].data.Keys == store[i].data.Keys + {"status", "updatedAt"}
      && r.value.0[i].data["status"] == status && r.value.0[i].data["updatedAt"] == Num(now)
      && Get(r.value.0[i].data, "warrantyEndDate") == Get(store[i].data, "warrantyEndDate")
      && (forall k :: k in store[i].data && k != "status" && k != "updatedAt" ==> r.value.0[i].data[k] == store[i].data[k])
    ensures r.Success? ==> forall i :: 0 <= i < |store| && store[i].id != customerId ==> r.value.0[i] == store[i]
  {
    var data := map["status" := status];
    assert Get(data, "purchaseDate") == Undefined;
    r := UpdateCustomer(store, customerId, data, now);
    if r.Success? {
      var changes :| UpdateChanges(data, changes, now) && r.value.0 == Merge(store, customerId, changes) &&
                     r.value.1 == map["id" := Str(customerId)] + changes;
      StatusChanges(status, changes, now);
      forall i | 0 <= i < |store| && store[i].id == customerId
        ensures var n := r.value.0[i].data;
          && n.Keys == store[i].data.Keys + {"status", "updatedAt"}
          && n["status"] == status && n["updatedAt"] == Num(now)
          && Get(n, "warrantyEndDate") == Get(store[i].data, "warrantyEndDate")
          && (forall k :: k in store[i].data && k != "status" && k != "updatedAt" ==> n[k] == store[i].data[k])
      {
        StatusRecord(store[i].data, changes, status, now);
      }
    }
  }

  /** A status update changes exactly the status and the update time. */
  lemma StatusChanges(status: Value, changes: Record, now: int)
    requires UpdateChanges(map["status" := status], changes, now)
    ensures changes.Keys == {"status", "updatedAt"}
    ensures changes["status"] == status && changes["updatedAt"] == Num(now)
  {
    assert Get(map["status" := status], "purchaseDate") == Undefined;
  }

  lemma StatusRecord(data: Record, changes: Record, status: Value, now: int)
    requires changes.Keys == {"status", "updatedAt"}
    requires changes["status"] == status && changes["updatedAt"] == Num(now)
    ensures var n := data + changes;
      && n.Keys == data.Keys + {"status", "updatedAt"}
      && n["status"] == status && n["updatedAt"] == Num(now)
      && Get(n, "warrantyEndDate") == Get(data, "warrantyEndDate")
      && (forall k :: k in data && k != "status" && k != "updatedAt" ==> n[k] == data[k])
  {
    assert "warrantyEndDate" !in changes;
  }

  // ------------------------------------------------- warranty selections

  const ACTIVE_ONLY: Record := map["status" := Str(Active.Name())]

  /** The inclusive window of `getExpiringWarranties`: from now up to
      `daysAhead` whole days ahead. */
  predicate InExpiringWindow(end: int, now: int, daysAhead: int)
  {
    now <= end <= now + daysAhead * DAY_MS
  }

  /** The stored warranty end of a customer, when it is a valid date. */
  function WarrantyEnd(customer: Record): Option<int>
  {
    TimeOf(Get(customer, "warrantyEndDate"))
  }

  predicate ExpiresSoon(now: int, daysAhead: int, customer: Record)
  {
    WarrantyEnd(customer).Some? && InExpiringWindow(WarrantyEnd(customer).value, now, daysAhead)
  }

  predicate HasExpired(now: int, customer: Record)
  {
    WarrantyEnd(customer).Some? && WarrantyEnd(customer).value < now
  }

  function Expiring(now: int, daysAhead: int): Record -> bool
  {
    c => ExpiresSoon(now, daysAhead, c)
  }

  function Expired(now: int): Record -> bool
  {
    c => HasExpired(now, c)
  }

  /** `getExpiringWarranties(daysAhead)`, the days defaulting to 3: every
      Active customer whose warranty ends within the window, in listing
      order. */
  function GetExpiringWarranties(store: seq<Doc>, daysAhead: Option<int>, now: int): (r: seq<Record>)
    ensures forall c :: c in r <==> c in GetCustomers(store, ACTIVE_ONLY) && ExpiresSoon(now, daysAhead.GetOr(3), c)
    ensures IsSubsequence(r, GetCustomers(store, ACTIVE_ONLY))
  {
    var customers := GetCustomers(store, ACTIVE_ONLY);
    var test := Expiring(now, daysAhead.GetOr(3));
    FilterIsSubsequence(customers, test);
    forall c ensures c in Filter(customers, test) <==> c in customers && ExpiresSoon(now, daysAhead.GetOr(3), c) {
      FilterMembership(customers, test, c);
    }
    Filter(customers, test)
  }

  /** `getExpiredWarranties()`: every Active customer whose warranty ended
      strictly before now, in listing order. */
  function GetExpiredWarranties(store: seq<Doc>, now: int): (r: seq<Record>)
    ensures forall c :: c in r <==> c in GetCustomers(store, ACTIVE_ONLY) && HasExpired(now, c)
    ensures IsSubsequence(r, GetCustomers(store, ACTIVE_ONLY))
  {
    var customers := GetCustomers(store, ACTIVE_ONLY);
    FilterIsSubsequence(customers, Expired(now));
    forall c ensures c in Filter(customers, Expired(now)) <==> c in customers && HasExpired(now, c) {
      FilterMembership(customers, Expired(now), c);
    }
    Filter(customers, Expired(now))
  }

  /** Every stored Active customer with a purchase date whose warranty
      ends within the window is reported as expiring, and every one whose
      warranty has ended is reported as expired. */
  lemma WarrantySelectionsComplete(store: seq<Doc>, daysAhead: Option<int>, now: int, d: Doc)
    requires d in store && "purchaseDate" in d.data && Get(d.data, "status") == Str(Active.Name())
    ensures ExpiresSoon(now, daysAhead.GetOr(3), Snapshot(d)) ==> Snapshot(d) in GetExpiringWarranties(store, daysAhead, now)
    ensures HasExpired(now, Snapshot(d)) ==> Snapshot(d) in GetExpiredWarranties(store, now)
  {
    assert Get(ACTIVE_ONLY, "status") == Str(Active.Name());
    assert Snapshot(d) in GetCustomers(store, ACTIVE_ONLY);
  }

  /** Both selections draw only on Active customers. */
  lemma ActiveCustomersOnly(store: seq<Doc>, c: Record)
    requires c in GetCustomers(store, ACTIVE_ONLY)
    ensures Get(c, "status") == Str(Active.Name())
  {
    var active := Str(Active.Name());
    assert Get(ACTIVE_ONLY, "status") == active;
    var cs := CustomerConstraints(ACTIVE_ONLY);
    CustomerQueryValid(ACTIVE_ONLY);
    var docs := RunQuery(store, cs).value;
    var i :| 0 <= i < |docs| && Snapshot(docs[i]) == c;
    RunQuerySound(store, cs);
    var d := docs[i];
    assert d in docs;
    assert SatisfiesAll(d.data, cs);
    assert Get(d.data, "status") == active;
    assert c["status"] == d.data["status"];
  }

  /** No customer is both expiring and expired. */
  lemma ExpiringAndExpiredDisjoint(store: seq<Doc>, daysAhead: Option<int>, now: int, c: Record)
    ensures !(c in GetExpiringWarranties(store, daysAhead, now) && c in GetExpiredWarranties(store, now))
  {
  }

  /** The service's window and the dashboard helpers disagree at the edges:
      an end exactly now is expiring for the service but not for
      `isWarrantyExpiringSoon`, and an end a millisecond ago is expired for
      the service but not for `isWarrantyExpired`. */
  lemma ExpiryRulesDiverge(now: int)
    ensures InExpiringWindow(now, now, 3) && !Helpers.IsWarrantyExpiringSoon(Some(now), now, 3)
    ensures now - 1 < now && !Helpers.IsWarrantyExpired(Some(now - 1), now)
  {
  }

  // -------------------------------------------------------------- search

  /** The customer search rule: lower-cased name or email contains the
      term, or the phone contains it verbatim. */
  predicate CustomerMatches(customer: Record, term: string)
  {
    LowerIncludes(Get(customer, "name"), term) || LowerIncludes(Get(customer, "email"), term)
    || Includes(Get(customer, "phone"), Str(term))
  }

  /** `searchCustomers(term)`: over all customers with a purchase date, in
      purchase order; a term that is not text throws. */
  function SearchCustomers(store: seq<Doc>, searchTerm: Value): (r: Result<seq<Record>>)
    ensures r.Failure? <==> !searchTerm.Str?
    ensures r.Success? ==> IsSubsequence(r.value, GetCustomers(store, map[]))
    ensures r.Success? ==> forall c :: c in r.value ==> CustomerMatches(c, Lower(searchTerm.s))
  {
    if IsNullish(searchTerm) then Failure("Cannot read properties of " + ToStr(searchTerm) + " (reading 'toLowerCase')")
    else if !searchTerm.Str? then Failure("searchTerm.toLowerCase is not a function")
    else
      var customers := GetCustomers(store, map[]);
      var term := Lower(searchTerm.s);
      FilterIsSubsequence(customers, c => CustomerMatches(c, term));
      Success(Filter(customers, c => CustomerMatches(c, term)))
  }

  /** Every stored customer with a purchase date that matches is found. */
  lemma SearchCustomersComplete(store: seq<Doc>, term: string, d: Doc)
    requires d in store && "purchaseDate" in d.data && CustomerMatches(Snapshot(d), Lower(term))
    ensures Snapshot(d) in SearchCustomers(store, Str(term)).value
  {
    var customers := GetCustomers(store, map[]);
    CustomerListed(store, d);
    var term' := Lower(term);
    assert SearchCustomers(store, Str(term)).value == Filter(customers, c => CustomerMatches(c, term'));
    FilterMembership(customers, c => CustomerMatches(c, term'), Snapshot(d));
  }

  /** Every stored customer with a purchase date is listed. */
  lemma CustomerListed(store: seq<Doc>, d: Doc)
    requires d in store && "purchaseDate" in d.data
    ensures Snapshot(d) in GetCustomers(store, map[])
  {
    assert StatusSelected(map[], d.data);
  }
}
