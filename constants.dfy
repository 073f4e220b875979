/** The shared constants of the storefront: catalog limits, the warranty
    period, the customer and review statuses, product conditions and
    categories, and the price bands of the catalog filter. */
module Constants {
  import opened Wrappers

  /** Milliseconds in a day, the unit of every date difference. */
  const DAY_MS: int := 24 * 60 * 60 * 1000

  /** Catalog limits. */
  const TOTAL_PRODUCTS: nat := 80
  const TOP_HIGHLIGHT_LIMIT: nat := 10
  const DEALS_LIMIT: nat := 10
  const NEW_ARRIVALS_LIMIT: nat := 10
  const LIMITED_STOCK_LIMIT: nat := 10
  const CATEGORY_GRID_LIMIT: nat := 30
  const BOTTOM_HIGHLIGHT_LIMIT: nat := 10
  const RELATED_PRODUCTS_LIMIT: nat := 8

  /** Days of testing warranty from the purchase date. */
  const WARRANTY_PERIOD_DAYS: nat := 15

  /** The lifecycle states an admin assigns to a customer. */
  datatype CustomerStatus = Active | WarrantyExpired | ReviewRequested | Completed
  {
    /** The text stored in a customer's `status` field. */
    function Name(): string
    {
      match this
      case Active => "Active"
      case WarrantyExpired => "Warranty Expired"
      case ReviewRequested => "Review Requested"
      case Completed => "Completed"
    }
  }

  const ALL_CUSTOMER_STATUSES: seq<CustomerStatus> := [Active, WarrantyExpired, ReviewRequested, Completed]

  /** The moderation states of a store review. */
  datatype ReviewStatus = Pending | Approved | Rejected
  {
    function Name(): string
    {
      match this
      case Pending => "Pending"
      case Approved => "Approved"
      case Rejected => "Rejected"
    }
  }

  const ALL_REVIEW_STATUSES: seq<ReviewStatus> := [Pending, Approved, Rejected]

  /** The customer status a stored text denotes, if any. */
  function ParseCustomerStatus(text: string): (r: Option<CustomerStatus>)
    ensures r.Some? ==> r.value.Name() == text
  {
    if text == "Active" then Some(Active)
    else if text == "Warranty Expired" then Some(WarrantyExpired)
    else if text == "Review Requested" then Some(ReviewRequested)
    else if text == "Completed" then Some(Completed)
    else None
  }

  /** The review status a stored text denotes, if any. */
  function ParseReviewStatus(text: string): (r: Option<ReviewStatus>)
    ensures r.Some? ==> r.value.Name() == text
  {
    if text == "Pending" then Some(Pending)
    else if text == "Approved" then Some(Approved)
    else if text == "Rejected" then Some(Rejected)
    else None
  }

  /** The four customer statuses have four distinct names, and each name
      reads back as its status. */
  lemma CustomerStatusNames(a: CustomerStatus, b: CustomerStatus)
    ensures a.Name() == b.Name() ==> a == b
    ensures ParseCustomerStatus(a.Name()) == Some(a)
    ensures a in ALL_CUSTOMER_STATUSES && |ALL_CUSTOMER_STATUSES| == 4
  {
  }

  /** The three review statuses have three distinct names, and each name
      reads back as its status. */
  lemma ReviewStatusNames(a: ReviewStatus, b: ReviewStatus)
    ensures a.Name() == b.Name() ==> a == b
    ensures ParseReviewStatus(a.Name()) == Some(a)
    ensures a in ALL_REVIEW_STATUSES && |ALL_REVIEW_STATUSES| == 3
  {
  }

  const PRODUCT_CONDITIONS: seq<string> := ["New", "Like New", "Used", "Refurbished"]

  /** The category tags a product's `category` list may hold. */
  const PREMIUM: string := "Premium"
  const STANDARD: string := "Standard"
  const BASIC: string := "Basic"

  /** An upper price bound: a number or `Infinity`. */
  datatype Bound = Finite(value: int) | Infinity
  {
    predicate Admits(x: int)
    {
      this.Infinity? || x <= this.value
    }
  }

  datatype PriceRange = PriceRange(name: string, min: int, max: Bound)
  {
    /** Inclusive at both ends, as the catalog filter compares. */
    predicate Contains(price: int)
    {
      min <= price && max.Admits(price)
    }
  }

  const PRICE_RANGES: seq<PriceRange> := [
    PriceRange("Under ₹20,000", 0, Finite(20000)),
    PriceRange("₹20,000 - ₹40,000", 20000, Finite(40000)),
    PriceRange("₹40,000 - ₹60,000", 40000, Finite(60000)),
    PriceRange("₹60,000 - ₹80,000", 60000, Finite(80000)),
    PriceRange("Above ₹80,000", 80000, Infinity)
  ]

  /** The bands start at 0, end at infinity, and each band's maximum is the
      next band's minimum; so every non-negative price lies in some band,
      and a shared boundary lies in two. */
  lemma PriceRangesTile(price: int)
    ensures PRICE_RANGES[0].min == 0 && PRICE_RANGES[|PRICE_RANGES| - 1].max == Infinity
    ensures forall k :: 0 <= k < |PRICE_RANGES| - 1 ==> PRICE_RANGES[k].max == Finite(PRICE_RANGES[k + 1].min)
    ensures price >= 0 ==> exists k :: 0 <= k < |PRICE_RANGES| && PRICE_RANGES[k].Contains(price)
    ensures forall k :: 1 <= k < |PRICE_RANGES| ==>
              PRICE_RANGES[k - 1].Contains(PRICE_RANGES[k].min) && PRICE_RANGES[k].Contains(PRICE_RANGES[k].min)
  {
    if 0 <= price {
      if price <= 20000 { assert PRICE_RANGES[0].Contains(price); }
      else if price <= 40000 { assert PRICE_RANGES[1].Contains(price); }
      else if price <= 60000 { assert PRICE_RANGES[2].Contains(price); }
      else if price <= 80000 { assert PRICE_RANGES[3].Contains(price); }
      else { assert PRICE_RANGES[4].Contains(price); }
    }
  }
}
