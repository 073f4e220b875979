# MITC storefront and admin console — a verified model of its business logic

MITC is a laptop store's web front end and admin console. The browser code keeps
the catalog, the customers and the store reviews in a hosted document store and
a realtime database. Around those calls sits a layer of plain business logic:
- slug, phone, email and date helpers;
- the product, review and password validators;
- the Cloudinary URL rewrite and the CSV text of the exports;
- the query each service builds, the 80-product cap, duplication, search, related products and per-category counts;
- the customer warranty arithmetic and the review moderation states;
- the filter pipelines, list editors and index carousels of the pages;
- the scheduled retention sweeps of the cloud functions.

This project models that layer in Dafny and proves what the code promises.

**How the program's world is represented.**
- **JavaScript values** (`Js`) are a datatype: undefined, null, booleans, numbers, NaN, text, arrays and objects. Truthiness, `===`, `<=`/`>=` with their coercions, `.length`, property access and the `{...spread}` of objects are written out, so each page's filter reads as the source does.
- **Numbers** are integers. Times are integer milliseconds, and the current instant `now` is a parameter.
- **The document store** (`DocumentStore`) is a sequence of documents, each an id plus a field map. A query is the list of constraints the services push: equality, array-contains, order-by and limit. `RunQuery` keeps the documents that satisfy every constraint and carry the order field, sorts them with a comparison that follows the store's type order, and cuts at the first limit. It refuses the queries the store refuses: an undefined equality value, an invalid order-by, a non-positive limit. Only the first order-by and the first limit take effect; later ones are ignored.
- **A document's snapshot** is `{ id, ...data }`, so a stored `id` field wins over the document id, exactly as in the services.
- **The index carousels** (image gallery, product page images, home page deals) share one class, `Carousel.Slider`. It has an index field, a count, and the invariant `0 <= index` and (`index < count`, or `count == 0` and `index == 0`): an empty list keeps the initial position 0.
- **The pages' filters** are methods that narrow the list step by step, reassigning it once per stage as the source does. Each is proved against a specification function that applies one order-preserving filter per stage.
- **The retention sweeps** run over a map of maps with an explicit cutoff. They are methods with nested loops that fill the update map, as the source does.

Where two parts of the code state the "same" rule differently, each is modelled as written, and a lemma shows the difference:
- the home listing compares the category by `===`, while the catalog page intersects category lists (`HomeListing.CategoryIsEquality`);
- the customer service's expiry window is an exact-time window, while the helpers use a day ceiling (`CustomerService.ExpiryRulesDiverge`);
- the stock badge says Limited for a flagged product, while the home page's "Only N left" note needs a stock of 1 to 3 (`HomePage.OnlyLeftSpec`);
- the user purge deletes from the `reviews` collection, while reviews are stored in `storeReviews`; the model keeps the collection names as written.

## Model

| member | source | states |
|---|---|---|
| Helpers.GenerateSlug | src/utils/helpers.js:66-73 | a generated slug uses only a-z, 0-9 and '-', with no '-' at either end and no two dashes in a row |
| Helpers.GenerateSlugIdempotent | src/utils/helpers.js:66-73 | slugging a slug gives it back unchanged |
| Helpers.SlugFixpoint | src/utils/helpers.js:66-73 | every well-formed slug is a fixed point of slug generation |
| Helpers.TruncateText | src/utils/helpers.js:76-79 | missing, empty or short enough text comes back as given; longer text becomes exactly the first maxLength characters without their leading and trailing white space, followed by "..." |
| Helpers.GetStockStatus | src/utils/helpers.js:82-86 | Out of Stock exactly when the stock is the number 0; Limited Stock exactly when it is not and the flag is truthy or the stock compares at most 3; In Stock otherwise |
| Helpers.StockStatusEdges | src/utils/helpers.js:82-86 | stock 0 is Out of Stock even when flagged; a missing stock follows the flag; 3 is Limited and 4 is In Stock |
| Helpers.DaysUntil | src/utils/helpers.js:89-98 | a missing date gives 0; otherwise the result is the ceiling of the difference in days: (days-1) days < date - now <= days days, negative for past dates |
| Helpers.IsWarrantyExpiringSoon | src/utils/helpers.js:101-105 | expiring soon exactly when 0 < end - now <= threshold days; never for a missing date |
| Helpers.IsWarrantyExpired | src/utils/helpers.js:107-110 | expired exactly when end - now <= -1 day; never for a missing date |
| Helpers.WarrantyPredicatesDisjoint | src/utils/helpers.js:101-109 | never both expiring and expired; neither for a missing date or during the whole day after the end instant |
| Helpers.RelativeTimeBuckets | src/utils/helpers.js:46-63 | under a minute (future dates included) is Just now; then whole minutes under an hour, whole hours under a day, whole days under a week; a week or more falls back to the date |
| Helpers.FormatRelativeTime | src/utils/helpers.js:46-63 | a missing date, and only a missing date, gives the empty text; minute counts lie in 1..59, hour counts in 1..23 and day counts in 1..6 |
| Helpers.ValidPhoneSeparators | src/utils/helpers.js:118-121 | spaces and hyphens inserted into a valid number keep it valid, while a leading '+' makes it invalid |
| Helpers.IsValidPhone | src/utils/helpers.js:118-121 | a valid number is made of digits, spaces and hyphens only: its digits are exactly what is left after removing spaces and hyphens, ten of them, the first 6 to 9 |
| Helpers.FormatPhone | src/utils/helpers.js:124-130 | text with exactly ten digits becomes "+91 " + the first five digits + " " + the last five; any other text is returned unchanged |
| Helpers.FormatPhoneIdempotent | src/utils/helpers.js:124-130 | formatting a formatted number changes nothing |
| Helpers.IsValidEmail | src/utils/helpers.js:112-115 | the email check accepts exactly the texts that split as local@domain.tld with non-empty, whitespace-free, '@'-free parts |
| Helpers.CsvCell | src/utils/helpers.js:175 | a falsy cell is written as "", a non-empty text as its JSON quoting, and no cell contains a line break |
| Helpers.CsvText | src/utils/helpers.js:169-176 | CSV text exists exactly when the row list is non-empty |
| Helpers.CsvLineCount | src/utils/helpers.js:172-176 | the text splits on line breaks into the header line of the first row's keys followed by one comma-joined line per row |
| Helpers.SplitJoinChar | src/utils/helpers.js:173-176 | joining lines free of the separator and splitting again gives the lines back |
| Validation.ProductErrorMap | src/utils/validation.js:3-27 | each error key is present exactly when its check fails; the too-many-images message overwrites the image-required one; no errors exactly when every check passes |
| Validation.ValidateProduct | src/utils/validation.js:2-33 | isValid is true exactly when the error map is empty; a non-text title, category or brand fails as the source's `.trim` does |
| Validation.ProductPriceRule | src/utils/validation.js:9-11 | a missing price, 0 or a negative price is rejected and every positive price is accepted |
| Validation.ProductImagesRule | src/utils/validation.js:21-27 | the images pass exactly when there are 1 to 10 of them, with the matching message otherwise |
| Validation.ProductValidIff | src/utils/validation.js:2-33 | a product with text fields is valid exactly when title, category and brand are not blank, the price is valid and there are 1 to 10 images |
| Validation.ProductTitleNotText | src/utils/validation.js:5 | a truthy title that is not text makes validation throw "productData.title.trim is not a function" |
| Validation.ValidateReview | src/utils/validation.js:36-55 | isValid is true exactly when the error map is empty |
| Validation.ReviewRatingRule | src/utils/validation.js:39-41 | a numeric rating passes exactly when it lies in 1..5; a missing or empty rating fails; non-empty text fails exactly when the number it spells lies outside 1..5, and text spelling no number passes |
| Validation.ReviewRatingTexts | src/utils/validation.js:39-41 | the text "7" fails like the number 7, "3" passes, and "great" passes because it reads as NaN |
| Validation.ReviewCommentRule | src/utils/validation.js:43-49 | a comment fails exactly when its trimmed length is under 10 or its raw length is over 1000; the too-long message overwrites the too-short one |
| Validation.ValidatePassword | src/utils/validation.js:64-75 | a missing password throws; otherwise it is valid exactly when its length is at least 6, and an invalid one gets exactly one message |
| Validation.PasswordTextRule | src/utils/validation.js:67 | for text, the length rule is exactly length >= 6 |
| Validation.ValidateEmail | src/utils/validation.js:58-61 | for text, accepts exactly the local@domain.tld shape of the helper's email check |
| Validation.ValidateEmailMissing | src/utils/validation.js:58-61 | a missing email is rejected, because it reads as the text "undefined" |
| Constants.CustomerStatusNames | src/utils/constants.js:37-42 | the four customer statuses have distinct names, and each name reads back as its status |
| Constants.ReviewStatusNames | src/utils/constants.js:45-49 | the three review statuses have distinct names, and each name reads back as its status |
| Constants.PriceRangesTile | src/utils/constants.js:86-92 | the price bands start at 0, end at infinity, and each maximum is the next minimum, so every non-negative price is in some band and a shared boundary is in two |
| ImageCompression.ValidateImageFile | src/utils/imageCompression.js:22-35 | a file is accepted, with result true, exactly when its type is JPEG, JPG, PNG or WebP and its size is at most 10 MiB; the type error takes precedence over the size error |
| ImageCompression.ImageFileBoundaries | src/utils/imageCompression.js:24-32 | exactly 10 MiB is accepted, one byte more is too large, and a GIF is refused by type |
| Cloudinary.GetOptimizedImageUrl | src/utils/cloudinary.js:77-93 | a missing, empty or non-Cloudinary URL, or one without "/upload/", is returned unchanged |
| Cloudinary.InsertAfterSingleUpload | src/utils/cloudinary.js:87-90 | with exactly one "/upload/", the transformation is inserted right after it, and removing the insertion gives the URL back |
| Cloudinary.TwoUploadsUnchanged | src/utils/cloudinary.js:87-92 | with two or more "/upload/" the URL is returned unchanged |
| Cloudinary.GetThumbnailUrl | src/utils/cloudinary.js:96-98 | a missing URL stays missing and a present one stays present; an empty URL, one not on the host and one without /upload/ come back unchanged |
| Cloudinary.ThumbnailInserted | src/utils/cloudinary.js:96-98 | a host URL with a single /upload/ gets "w_<size>,q_auto,f_auto/" inserted right after it, 300 when no size is given |
| Cloudinary.DefaultTransformations | src/utils/cloudinary.js:80-84 | the defaults are width 800 with automatic quality and format; the thumbnail's is width 300 |
| DocumentStore.Snapshot | src/services/productService.js:79 | a returned record has the document's fields plus id, the document id unless the data has an id of its own |
| DocumentStore.Sort | src/services/productService.js:64-66 | the result is ordered by the field and direction and is a permutation of the input |
| DocumentStore.CompareValuesAntisymmetric | src/services/productService.js:64-66 | comparing in the other direction negates the order, so the sort is consistent |
| DocumentStore.RunQuery | src/services/productService.js:74-78 | a query fails exactly when the store would refuse it; otherwise its result is a prefix of the sorted matching documents, of length min(limit, matches) under a limit and all of them without one |
| DocumentStore.MatchingExact | src/services/productService.js:74-78 | a document matches exactly when it satisfies every constraint and has the order field, and the matches are sorted |
| DocumentStore.RunQuerySound | src/services/productService.js:74-78 | every returned document is stored, satisfies every constraint and has the order field, and the result is sorted |
| DocumentStore.RunQueryComplete | src/services/productService.js:74-78 | every stored document that satisfies the constraints and has the order field is returned, unless the limit is already reached |
| DocumentStore.Merge | src/services/reviewService.js:84-88 | an update changes only the document with that id, by merging the changes over its fields |
| DocumentStore.Delete | src/services/reviewService.js:96-100 | a delete keeps exactly the documents with other ids, in order |
| DocumentStore.FindById | src/services/productService.js:87-96 | finds a stored document with the id, or reports that none exists |
| ProductService.BuildConstraints | src/services/productService.js:28-72 | the constraint list built by pushing clauses is the specification's list |
| ProductService.FieldClausesSelect | src/services/productService.js:30-40 | the published clause applies whenever published is given, true or false; category (array-contains) and brand apply only when truthy |
| ProductService.FlagClausesSelect | src/services/productService.js:42-60 | each flag restricts to flagged products exactly when it is truthy in the filters |
| ProductService.ConstraintsMembers | src/services/productService.js:28-72 | a clause is in the query exactly when the filters call for it |
| ProductService.ConstraintsShape | src/services/productService.js:62-72 | there is always exactly one ordering, createdAt descending unless one is given, and a limit only when one is given |
| ProductService.ConstraintsSelect | src/services/productService.js:28-72 | a record satisfies the whole query exactly when it satisfies the filters' selection |
| ProductService.ConstraintsValid | src/services/productService.js:28-72 | the query is accepted exactly when the filters are valid, and its ordering is the requested one |
| ProductService.GetProducts | src/services/productService.js:23-84 | the listing fails exactly when the store refuses the built query |
| ProductService.GetProductsSound | src/services/productService.js:23-84 | every listed record is the snapshot of a stored product that the filters select |
| ProductService.GetProductsComplete | src/services/productService.js:23-84 | without a limit, every stored product that the filters select is listed |
| ProductService.EmptyFilters | src/services/productService.js:62-67 | empty filters give the single clause orderBy createdAt desc |
| ProductService.AllProductsCount | src/services/productService.js:129 | the unfiltered listing counts every product that has createdAt |
| ProductService.GetProduct | src/services/productService.js:87-101 | the result is the snapshot of the product with that id, or "Product not found" exactly when there is none |
| ProductService.SlugQueryFacts | src/services/productService.js:106-110 | the slug query is slug equality with limit 1, and it is refused for an undefined slug |
| ProductService.GetProductBySlugSpec | src/services/productService.js:104-123 | the result is the snapshot of a product with that slug, or "Product not found" exactly when there is none |
| ProductService.GetProductBySlug | src/services/productService.js:104-123 | a found product is the snapshot of a stored document whose slug field equals the one asked for |
| ProductService.GetProductBySlugUndefined | src/services/productService.js:104-123 | an undefined slug fails with the store's error rather than not-found |
| ProductService.Stamped | src/services/productService.js:134-138 | a new record keeps the given fields and sets createdAt and updatedAt to now |
| ProductService.CreateProduct | src/services/productService.js:126-146 | creation fails with the cap message exactly when 80 or more products exist; otherwise it appends the stamped record and returns its snapshot |
| ProductService.CreateProductKeepsCap | src/services/productService.js:129-132 | a successful creation adds one product and never takes the count above 80 |
| ProductService.DuplicateProduct | src/services/productService.js:178-193 | duplication fails when the product is missing or the cap is reached; otherwise it appends a copy of the original |
| ProductService.StampedCopy | src/services/productService.js:183-188 | the copy has title + " (Copy)", slug + "-copy-" + the time, published false, fresh timestamps, and otherwise the original's fields |
| ProductService.SearchProducts | src/services/productService.js:196-213 | search throws on a non-text term; otherwise it returns, in listing order, published products that match the lower-cased term |
| ProductService.SearchProductsExact | src/services/productService.js:200-208 | every listed published product that matches is returned, and everything returned is a stored published product |
| ProductService.SliceTo | src/services/productService.js:227 | `slice(0, end)` is a prefix of the length JavaScript gives, including for a negative end |
| ProductService.GetRelatedProducts | src/services/productService.js:216-232 | fails when the product is missing; otherwise returns exactly the first limit (8 by default) of the published same-brand products, newest first, with the product itself removed |
| ProductService.RelatedProductsComplete | src/services/productService.js:216-232 | every other published product of the same brand (any brand when the product has none) is listed unless the list already holds limit products |
| ProductService.RelatedProductsSameBrand | src/services/productService.js:219-222 | related products are published and, when the product has a brand, share it |
| ProductService.RelatedNoBrandClause | src/services/productService.js:219-222 | a product without a brand gets no brand clause in its related query |
| ProductService.GetProductsCountByCategory | src/services/productService.js:235-254 | each count is the number of listed products carrying that category (or flag), and the total is the product count |
| ProductService.CategoryCountsMeaning | src/services/productService.js:235-254 | each count is the number of stored products, with a creation time, whose snapshot carries that category or flag |
| CustomerService.WarrantyEndDate | src/services/customerService.js:20-24 | the warranty ends 15 days after a valid purchase date; an invalid date or one out of range fails with "Invalid time value" |
| CustomerService.CustomerQueryValid | src/services/customerService.js:31-41 | the customer query is accepted, ordered by purchase date descending, without a limit, and restricts by status only when one is given |
| CustomerService.GetCustomersExact | src/services/customerService.js:27-49 | the listing is exactly the customers with a purchase date and the requested status, sorted newest purchase first |
| CustomerService.GetCustomers | src/services/customerService.js:27-49 | every stored customer with a purchase date and the requested status is listed, and every listed one is the snapshot of such a customer |
| CustomerService.GetCustomer | src/services/customerService.js:52-66 | the snapshot of the customer with that id, or "Customer not found" exactly when there is none |
| CustomerService.CreateCustomer | src/services/customerService.js:69-87 | stores the given fields plus status Active, the computed warranty end and both timestamps; fails exactly when the warranty end cannot be computed |
| CustomerService.UpdateCustomer | src/services/customerService.js:90-110 | merges the given fields and updatedAt into the customer, adding a recomputed warranty end only when a purchase date is supplied |
| CustomerService.UpdateCustomerStatus | src/services/customerService.js:159-161 | any status may be set from any status; only status and updatedAt change, and the warranty end is kept |
| CustomerService.GetExpiringWarranties | src/services/customerService.js:125-140 | returns, in listing order, exactly the Active customers whose warranty ends between now and now + daysAhead days (3 by default), inclusive |
| CustomerService.GetExpiredWarranties | src/services/customerService.js:143-156 | returns, in listing order, exactly the Active customers whose warranty ended before now |
| CustomerService.WarrantySelectionsComplete | src/services/customerService.js:125-156 | a stored Active customer with a purchase date is in the expiring or expired list whenever its end date qualifies |
| CustomerService.ActiveCustomersOnly | src/services/customerService.js:127 | both selections draw only from Active customers |
| CustomerService.ExpiringAndExpiredDisjoint | src/services/customerService.js:132-151 | no customer is both expiring and expired |
| CustomerService.ExpiryRulesDiverge | src/services/customerService.js:132-151 | an end exactly at now is expiring for the service but not for the helper; one millisecond past is expired for the service but not for the helper |
| CustomerService.SearchCustomers | src/services/customerService.js:169-183 | throws on a non-text term; otherwise returns listed customers whose lower-cased name or email, or verbatim phone, contains the term |
| CustomerService.SearchCustomersComplete | src/services/customerService.js:174-178 | every listed customer that matches is returned |
| ReviewService.BuildReviewConstraints | src/services/reviewService.js:25-39 | the constraint list built by pushing clauses is the specification's list |
| ReviewService.ReviewQueryFacts | src/services/reviewService.js:25-39 | the review query orders by createdAt descending, limits only when asked, and restricts by status only when one is given |
| ReviewService.GetReviews | src/services/reviewService.js:21-47 | fails exactly when a truthy limit is not a positive number; otherwise lists the first min(limit, matches) matching reviews in order, or all of them without a limit |
| ReviewService.GetReviewsComplete | src/services/reviewService.js:21-47 | every stored review with the requested status is listed unless the limit is already reached |
| ReviewService.ReviewMatches | src/services/reviewService.js:21-47 | the matching reviews are exactly the stored ones with a creation time and the requested status, newest first |
| ReviewService.GetReviewsSound | src/services/reviewService.js:21-47 | every listed review is stored, has the requested status, and the list is newest first |
| ReviewService.GetReview | src/services/reviewService.js:50-64 | the snapshot of the review with that id, or "Review not found" exactly when there is none |
| ReviewService.CreateReview | src/services/reviewService.js:67-81 | stores the given fields with status Pending, overriding any given status, and the creation time |
| ReviewService.UpdateReview | src/services/reviewService.js:84-93 | fails exactly when the review is missing; otherwise merges the fields into it |
| ReviewService.SetStatusSpec | src/services/reviewService.js:108-125 | approve and reject set only the status, from any status, and leave every other review untouched |
| ReviewService.DeleteReview | src/services/reviewService.js:96-105 | deletion returns true and keeps exactly the other reviews |
| ReviewService.GetApprovedReviews | src/services/reviewService.js:128-138 | the first min(limitCount, approved) approved reviews in order, 10 by default; a falsy count lists them all; a truthy count that is not a positive number fails |
| ReviewService.ApprovedReviewsComplete | src/services/reviewService.js:128-138 | every stored approved review is listed unless the limit is already reached |
| ReviewService.ApproveReview | src/services/reviewService.js:108-116 | succeeds exactly when a stored review has the id; that review's status becomes "Approved" and every other document is unchanged |
| ReviewService.RejectReview | src/services/reviewService.js:118-126 | succeeds exactly when a stored review has the id; that review's status becomes "Rejected" and every other document is unchanged |
| ReviewService.ApprovedReviewsSound | src/services/reviewService.js:128-138 | every review returned is Approved |
| ReviewService.GetAverageRating | src/services/reviewService.js:141-153 | zero without approved reviews; otherwise the sum of ratings, a missing rating counted as 0, over their number |
| ReviewService.AverageBounds | src/services/reviewService.js:147-148 | with every rating in 1..5, the mean lies between 1 and 5 |
| ReviewService.Bucket | src/services/reviewService.js:163-164 | a review counts towards a bucket 1..5 exactly when its rating compares within [1, 5], and then towards its own rating |
| ReviewService.CountByRating | src/services/reviewService.js:160-168 | the buckets are 1..5, and each holds the number of reviews rated with it |
| ReviewService.GetReviewsCountByRating | src/services/reviewService.js:156-173 | the counts of the approved reviews, bucket by bucket |
| ReviewService.CountsTotal | src/services/reviewService.js:160-166 | the bucket total is the number of rated reviews, never more than the approved reviews |
| ReviewService.AllRatedCounted | src/services/reviewService.js:160-166 | when every rating is a number in 1..5, the buckets count every review |
| ProductsPage.ApplyFilters | src/pages/public/ProductsPage.jsx:72-103 | the step-by-step reassignments give the specified conjunctive filter of the loaded products |
| ProductsPage.FilteredExact | src/pages/public/ProductsPage.jsx:72-103 | a product is shown exactly when it is loaded, its brand and condition are selected (if any are), its categories share one with the selection (if any), its price is within the range, and it carries every flag switched on |
| ProductsPage.FilteredOrderAndIdempotence | src/pages/public/ProductsPage.jsx:72-103 | the shown list keeps the loaded order, and filtering it again changes nothing |
| ProductsPage.CategoryIsUnion | src/pages/public/ProductsPage.jsx:81-85 | selecting more categories widens the list to the union of their matches |
| ProductsPage.ClearedListing | src/pages/public/ProductsPage.jsx:93-95 | with cleared filters a product is shown exactly when its price compares at least 0 |
| ProductsPage.ToggleBrandSpec | src/pages/public/ProductsPage.jsx:115-119 | toggling appends an absent brand and removes a present one, leaves other brands alone, and toggling twice restores the selection |
| ProductsPage.ToggleBrand | src/pages/public/ProductsPage.jsx:115-119 | flips whether the brand is selected and changes nothing else |
| ProductsPage.ToggleCategory | src/pages/public/ProductsPage.jsx:121-125 | flips whether the category is selected and changes nothing else |
| ProductsPage.ToggleCondition | src/pages/public/ProductsPage.jsx:127-131 | flips whether the condition is selected and changes nothing else |
| ProductsPage.ToggleCategorySpec | src/pages/public/ProductsPage.jsx:121-125 | the same for categories |
| ProductsPage.ToggleConditionSpec | src/pages/public/ProductsPage.jsx:127-131 | the same for conditions |
| ProductsPage.ClearFilters | src/pages/public/ProductsPage.jsx:105-113 | all seven criteria return to their initial values |
| ProductsPage.ShowClearAll | src/pages/public/ProductsPage.jsx:149 | Clear All shows exactly when some criterion other than the price range differs from its cleared value |
| ProductsPage.FetchFilters | src/pages/public/ProductsPage.jsx:40-48 | the query asks for published products plus the one flag that the URL's filter names |
| HomeListing.FilterListing | src/pages/Home.jsx:46-81 | the step-by-step reassignments give the specified conjunctive filter of the loaded products |
| HomeListing.ListedExact | src/pages/Home.jsx:46-81 | a product is listed exactly when it is loaded, its searchable text contains the term (if given), its category and brand equal the chosen ones (if truthy), its price is within the bounds that are set, and its inStock equals the chosen value (if set) |
| HomeListing.ListedOrderAndIdempotence | src/pages/Home.jsx:46-81 | the listed products keep the loaded order, and listing again changes nothing |
| HomeListing.CategoryIsEquality | src/pages/Home.jsx:58-60 | a product whose category is a list never passes a category filter, since the test is `===` |
| HomeListing.OptionsSpec | src/pages/Home.jsx:30-33 | the category and brand options are the distinct values in first-occurrence order, and every product's value is offered |
| ProductsManagementPage.FilterProducts | src/pages/admin/ProductsManagementPage.jsx:39-60 | the step-by-step reassignments give the specified conjunctive filter of the products |
| ProductsManagementPage.ShownExact | src/pages/admin/ProductsManagementPage.jsx:39-60 | a product is shown exactly when the search matches its title, brand or model, the brand is "all" or equal, and the published choice is "all" or matches; the order is kept |
| ProductsManagementPage.UnsetPublishedHidden | src/pages/admin/ProductsManagementPage.jsx:55-57 | a product without a published field appears under neither "published" nor "unpublished" |
| ProductsManagementPage.BrandOptionsSpec | src/pages/admin/ProductsManagementPage.jsx:85 | the brand options are the distinct non-empty brands in first-occurrence order, and every truthy brand is offered |
| CustomersPage.FilterCustomers | src/pages/admin/CustomersPage.jsx:38-57 | the step-by-step reassignments give the specified conjunctive filter of the customers |
| CustomersPage.ShownExact | src/pages/admin/CustomersPage.jsx:38-57 | a customer is shown exactly when the status filter is "all" or equal and the search matches their name, email or phone; the order is kept, and filtering again changes nothing |
| CustomersPage.WarrantyBadgeSpec | src/pages/admin/CustomersPage.jsx:70-80 | non-Active customers get no badge; an Active one gets Expired at least a day past the end, Expiring Soon up to three days before it, and Active otherwise |
| CustomersPage.WarrantyBadge | src/pages/admin/CustomersPage.jsx:70-80 | no badge exactly for non-Active customers; an Active customer without a valid end date shows Active |
| CustomersPage.StatusOptionsComplete | src/pages/admin/CustomersPage.jsx:173-182 | the selector offers all four statuses, in order |
| StoreReviewsPage.FilterReviews | src/pages/admin/StoreReviewsPage.jsx:35-41 | "all" shows every review; any filter keeps the order |
| StoreReviewsPage.FilterReviewsMembership | src/pages/admin/StoreReviewsPage.jsx:35-41 | any other filter keeps exactly the reviews with that status |
| StoreReviewsPage.TabCountSpec | src/pages/admin/StoreReviewsPage.jsx:135-165 | each tab's count is the size of that tab's list, at most the All count |
| StoreReviewsPage.TabCountsTotal | src/pages/admin/StoreReviewsPage.jsx:135-165 | the three status counts add up to at most the All count |
| StoreReviewsPage.ActionsSpec | src/pages/admin/StoreReviewsPage.jsx:212-235 | Approve is offered exactly when the review is not Approved, Reject exactly when it is not Rejected, Delete always; a Pending review offers all three |
| StoreReviewsPage.ExportRows | src/pages/admin/StoreReviewsPage.jsx:79-87 | the export has one row per shown review |
| StoreReviewsPage.ExportRowsSpec | src/pages/admin/StoreReviewsPage.jsx:79-87 | each row has the columns Customer, Rating, Title, Comment, Status and Date, in order, taken from its review |
| ProductEditorPage.OrEmpty | src/pages/admin/ProductEditorPage.jsx:58-60 | a falsy list field becomes [] and a truthy one is kept |
| ProductEditorPage.LoadForm | src/pages/admin/ProductEditorPage.jsx:56-61 | a loaded product keeps every field, with [] for a falsy category, tags or gallery |
| ProductEditorPage.LoadFormWellFormed | src/pages/admin/ProductEditorPage.jsx:56-61 | the loaded form's list fields are lists exactly when the stored ones are lists or falsy |
| ProductEditorPage.HandleChange | src/pages/admin/ProductEditorPage.jsx:71-82 | the named field gets `checked` for a checkbox and `value` otherwise; the slug follows the title only when creating; nothing else changes |
| ProductEditorPage.TitleSlug | src/pages/admin/ProductEditorPage.jsx:79-81 | the slug derived from a title is well formed, and editing a title leaves the slug alone |
| ProductEditorPage.HandleCategoryChange | src/pages/admin/ProductEditorPage.jsx:84-93 | a present category is removed and an absent one appended at the end; nothing else changes |
| ProductEditorPage.CategoryChangeTwice | src/pages/admin/ProductEditorPage.jsx:84-93 | toggling a category twice restores the same members, and the same list when it was absent |
| ProductEditorPage.HandleAddTag | src/pages/admin/ProductEditorPage.jsx:95-103 | the trimmed input is appended, and the input cleared, exactly when it is non-blank and not yet a tag; otherwise nothing changes |
| ProductEditorPage.AddTagKeepsClean | src/pages/admin/ProductEditorPage.jsx:95-103 | adding tags keeps the tags distinct, trimmed and non-blank |
| ProductEditorPage.HandleRemoveTag | src/pages/admin/ProductEditorPage.jsx:105-110 | every occurrence of the tag is removed and the other tags keep their order |
| ProductEditorPage.RemoveUndoesAdd | src/pages/admin/ProductEditorPage.jsx:95-110 | removing a tag just added restores the tag list |
| ProductEditorPage.HandleRemoveGalleryImage | src/pages/admin/ProductEditorPage.jsx:140-145 | exactly the image at the index is removed and the others keep their order; an index out of range changes nothing |
| ProductEditorPage.ProductData | src/pages/admin/ProductEditorPage.jsx:152-156 | on submit, price and stock become numbers or NaN and every other field is copied |
| ProductEditorPage.ProductDataNumbers | src/pages/admin/ProductEditorPage.jsx:152-156 | typed decimal numbers are saved as those numbers |
| ProductEditorPage.BlankBoxesSaveZero | src/pages/admin/ProductEditorPage.jsx:22-29 | empty price and stock boxes, as on a new form, are saved as 0 |
| SiteSettingsPage.HandleChange | src/pages/admin/SiteSettingsPage.jsx:18-26 | only settings[section][field] changes; the section's other fields and the other sections are kept |
| SiteSettingsPage.HandleChangeShown | src/pages/admin/SiteSettingsPage.jsx:18-26 | the field then shows the new value, and a second edit of the same field overrides the first |
| SiteSettingsPage.HandleSocialChange | src/pages/admin/SiteSettingsPage.jsx:28-39 | only branding.social[platform] changes; it throws exactly when branding is null or undefined |
| SiteSettingsPage.SocialChangeShown | src/pages/admin/SiteSettingsPage.jsx:28-39 | the platform shows the new value and the other platforms keep theirs |
| SiteSettingsPage.TemplateCopy | src/pages/admin/SiteSettingsPage.jsx:42 | a falsy template list copies as [], a list as itself, and a truthy non-iterable throws |
| SiteSettingsPage.SetSlot | src/pages/admin/SiteSettingsPage.jsx:43 | assigning a slot sets that index, keeps the others, and pads with undefined past the end |
| SiteSettingsPage.HandleTemplateChange | src/pages/admin/SiteSettingsPage.jsx:41-45 | only the template at the index changes |
| SiteSettingsPage.TemplateChangeInRange | src/pages/admin/SiteSettingsPage.jsx:41-45 | for an index in range, the list length is unchanged and only that slot differs |
| SiteSettingsPage.EditPage | src/pages/admin/SiteSettingsPage.jsx:277-306 | a page edit changes only pages[page].title or pages[page].content; it throws exactly when pages is null or undefined |
| SiteSettingsPage.EditPageShown | src/pages/admin/SiteSettingsPage.jsx:277-306 | the edited field shows the new text, and every other field of every page is unchanged |
| SiteSettingsPage.CloudinaryStatusSpec | src/pages/admin/SiteSettingsPage.jsx:338 | Connected exactly when cloudName is truthy, Not Connected otherwise |
| ProductDetailPage.DisplayedImages | src/pages/public/ProductDetailPage.jsx:74-76 | at least one image is always shown |
| ProductDetailPage.DisplayedImagesSpec | src/pages/public/ProductDetailPage.jsx:74-76 | a non-empty gallery is shown as it is; a falsy or empty one falls back to the featured image |
| ProductDetailPage.ArrowsStepOverShownImages | src/pages/public/ProductDetailPage.jsx:41-51 | when the arrows render, the length the steps wrap around is the number of images shown |
| ProductDetailPage.MessageTemplate | src/pages/public/ProductDetailPage.jsx:53-55 | the template fails exactly when it is not text |
| ProductDetailPage.MessageTemplateSpec | src/pages/public/ProductDetailPage.jsx:53-55 | only the first "[Product Title]" is replaced, by the title or by nothing without a product; a template without it is sent unchanged |
| ProductDetailPage.WhatsAppNumber | src/pages/public/ProductDetailPage.jsx:322 | the link number consists of digits only, kept in their order |
| ProductDetailPage.WhatsAppNumberSpec | src/pages/public/ProductDetailPage.jsx:322 | a character survives exactly when it is a digit of the configured number, and stripping twice changes nothing |
| ProductDetailPage.WhatsAppNumberOfFormatted | src/pages/public/ProductDetailPage.jsx:322 | a number in the site's +91 format links to 91 followed by its ten digits |
| ProductDetailPage.ContactButtonFor | src/pages/public/ProductDetailPage.jsx:185-187 | the button is disabled exactly when it reads Out of Stock |
| ProductDetailPage.ContactButtonMatchesStock | src/pages/public/ProductDetailPage.jsx:185-187 | the button is disabled exactly when the stock is the number 0, which is exactly when the stock line reads Out of Stock |
| HomePage.SectionQueryLimited | src/pages/public/HomePage.jsx:28-35 | every section's query is accepted and lists at most 10 products |
| HomePage.SectionQuerySound | src/pages/public/HomePage.jsx:28-35 | every listed product is published, and a tier section's products list the tier among their categories |
| HomePage.OnlyLeftSpec | src/pages/public/HomePage.jsx:282-284 | "Only N left" shows exactly for a stock of 1 to 3, whatever the flag; such a product is Limited Stock, while a flagged product with more stock shows no note |
| Carousel.JsRemainder | src/components/products/ImageGallery.jsx:9-15 | JavaScript's `%` truncates: for a non-negative dividend it is the usual remainder, and its sign follows the dividend |
| Carousel.StepsInRange | src/components/products/ImageGallery.jsx:9-15 | from an index in range, next moves to the following index or wraps to 0, prev to the preceding one or wraps to the last; both stay in range |
| Carousel.StepsUndo | src/components/products/ImageGallery.jsx:9-15 | next and prev undo each other |
| Carousel.AdvanceWraps | src/components/products/ImageGallery.jsx:9-11 | k successive next steps, for k up to the count, add k and wrap once past the end |
| Carousel.FullCycle | src/components/products/ImageGallery.jsx:9-11 | as many next steps as there are images return to the starting image |
| Carousel.Slider.constructor | src/pages/public/HomePage.jsx:54-60 | a new slider starts at index 0 over the given count |
| Carousel.Slider.Next | src/components/products/ImageGallery.jsx:9-11 | the index becomes (i + 1) mod n and stays in range |
| Carousel.Slider.Prev | src/components/products/ImageGallery.jsx:13-15 | the index becomes (i - 1 + n) mod n and stays in range |
| Carousel.Slider.Select | src/components/products/ImageGallery.jsx:68 | clicking a thumbnail selects that image |
| Carousel.Slider.Counter | src/components/products/ImageGallery.jsx:57-59 | the counter shows i + 1 of n, within 1..n |
| Cleanup.StaleMembership | functions/src/cleanup.js:74-82 | an entry is stale exactly when its timestamp compares below the cutoff; an entry without a timestamp is kept |
| Cleanup.StaleMonotone | functions/src/cleanup.js:68-77 | a later cutoff selects at least as many entries |
| Cleanup.PathInjective | functions/src/cleanup.js:78 | distinct (product, message) pairs give distinct update paths when keys contain no '/' |
| Cleanup.SelectStale | functions/src/cleanup.js:72-86 | the nested loops set exactly the paths of the stale entries, each to null, and the count is the number of stale entries |
| Cleanup.CleanupOldChats | functions/src/cleanup.js:62-93 | the chat messages older than 30 days, keyed chats/product/message, are set to null and counted |
| Cleanup.CleanupUnreadIndicators | functions/src/cleanup.js:96-126 | the typing entries older than 7 days, keyed typing/product/user, are set to null and counted |
| Cleanup.Apply | functions/src/cleanup.js:84 | applying updates only removes entries and never alters one that is kept |
| Cleanup.SweepKeepsExactlyFresh | functions/src/cleanup.js:72-84 | after the sweep, an entry remains exactly when it was present and not stale |
| Cleanup.QueryMembership | functions/src/cleanup.js:16-19 | the purge selects exactly the users with deletionRequested true and a request time at or before the cutoff, and each user's reviews by userId |
| Cleanup.RefsOf | functions/src/cleanup.js:35-37 | one deletion per review, in order |
| Cleanup.CleanupDeletedUsers | functions/src/cleanup.js:5-59 | the batch holds each purged user followed by their reviews, and one presence removal and one account deletion per purged user, counted |
| Cleanup.PurgeUsers | functions/src/cleanup.js:23-47 | the loop over the returned users builds, user by user in the order of the given sequence, the batch of each user and their reviews, and one presence path and one account per user |
| Cleanup.UserRefsMembership | functions/src/cleanup.js:27-37 | a user's deletions are exactly their own document and their reviews |
| Cleanup.BatchMembership | functions/src/cleanup.js:24-50 | a document is batched exactly when it is a purged user or a review of one |
| Cleanup.PurgeBoundary | functions/src/cleanup.js:13-19 | a user without the flag is kept; a request exactly 7 days old is purged; a later one is kept |

## Left out

- Hosted-backend calls (reads, writes, batches, auth and realtime subscriptions) are modelled as values: the store is a sequence of documents, and a write returns the new sequence. Promise ordering, network failures and retries are not modelled.
- `serverTimestamp()`, `Date.now()` and `new Date()` become the parameter `now`. The id a new document receives becomes the parameter `newId`.
- Calendar arithmetic (`setDate`, local time and DST) is modelled as a fixed 86 400 000 ms day. Dates stored as text are not parsed; a date is its instant in milliseconds.
- CustomerService.CreateCustomer: stores the warranty end as its instant in milliseconds, not as the ISO text `toISOString` writes.
- CustomerService.WarrantyEndDate: date text is not parsed, so a purchase date given as "YYYY-MM-DD" text, as the customers page's form sends it, is an invalid time here. Creating a customer from that form therefore always fails in the model, where the source succeeds.
- Numbers are integers: fractional prices, ratings and floating-point rounding are not modelled.
- ReviewService.GetAverageRating: returns the sum and count of the ratings rather than the `toFixed(1)` text of their quotient.
- GetAverageRating: only numeric ratings are added; any other rating adds 0. In the source a truthy text rating turns the sum into text concatenation and `true` adds 1.
- ReviewService.CountByRating: the junk key that `counts[rating]++` would add for a non-integer rating inside [1, 5] is not modelled, since ratings are integers here.
- The document store's order between values of different kinds follows the store's type order; the order of arrays and objects among themselves, and composite-index errors, are not modelled.
- updateProduct, deleteProduct and deleteCustomer are single store writes with no logic of their own; they are covered by `DocumentStore.Merge` and `DocumentStore.Delete`.
- formatDate and formatCurrency are locale formatting: the store reviews' CSV takes the date formatter as a parameter.
- downloadJSON, the Blob/anchor part of downloadCSV, copyToClipboard, sanitizeHTML, debounce, image compression and uploads are browser I/O.
- Text is a sequence of Unicode code points, where JavaScript counts UTF-16 code units. `.length`, `substring` and `slice` therefore differ for text outside the Basic Multilingual Plane: the review comment's 1000-character bound, the password's 6-character bound and truncateText's cut point are counted in code points here.
- White space for `trim` and `\s` is the full ECMAScript set. Lower-casing is ASCII only; Unicode case mapping is not modelled.
- SearchCustomers: a customer whose name, email or phone is a number (or another truthy non-text value) makes `toLowerCase` or `includes` throw in the source; the model treats it as not matching. The same holds for CustomerService.CustomerMatches.
- ShownExact (CustomersPage.ShownExact): a numeric name, email or phone throws in the source's search; the model treats it as not matching.
- ShownExact (ProductsManagementPage.ShownExact): a non-text title, brand or model throws in the source's search; the model treats it as not matching. The same holds for ProductsManagementPage.SearchHit.
- GetProductsCountByCategory: a truthy category that is a number, a boolean or an object makes `category?.includes` throw in the source; the model counts it as carrying no category.
- HandleCategoryChange: a stored category that is text is read as the empty list. The source keeps the text, and then either throws in `.filter` or spreads it into its characters.
- ProductService.SearchProducts: a non-text title, brand, model or tag, which would make `toLowerCase` throw, is treated as not matching.
- ProductsPage.FilteredExact: a truthy category that is neither text nor a list, on which `includes` would throw, is treated as no match.
- HomeListing.ListedExact: truthy tags that are not a list, on which `join` would throw, make the product match no search.
- ProductEditorPage.HandleAddTag: requires the form's list fields to be lists, which holds for every form the editor builds; a stored truthy non-list value is not modelled.
- SiteSettingsPage.HandleChange: the spread of a section that is text or a list (which copies its characters or elements) is modelled as an empty object.
- Carousel.Slider: the gallery keeps its index when a new image list is passed in; the model does not follow that prop change.
- ProductDetailPage.DisplayedImages: an object with its own length property as the gallery is not modelled. A non-empty text gallery is shown as its characters, where the source keeps the text and its `images.map` throws; the editor only ever stores lists.
- ProductDetailPage.WhatsAppNumber: the `encodeURIComponent` of the message text in the link is not modelled.
- Image upload handlers in the editor and settings pages, and the settings context's merge with defaults, are store I/O.
- Cleanup.SelectStale: the realtime database never stores null children, so a missing entry is read as having no timestamp; the order in which `forEach` visits keys is not modelled, since the update map does not depend on it.
- Cleanup.PurgeUsers: the users and reviews are taken in the order of the given sequences, not in the store's query order (deletionRequestedAt, then id; reviews by id). A batch of deletes does not depend on that order.
- Helpers.CsvCell: requires cells that are not objects, which `JSON.stringify` would write as `{…}`; the store reviews' export passes only text and number fields.
- DocumentStore.Merge: a write whose field value is undefined is accepted, where the store refuses it with "Unsupported field value: undefined". The same holds for the Create* members. The forms only send text, so no caller writes undefined.
- Cleanup.Apply: removal of a parent node left empty by the sweep is not modelled.
- Cleanup.CleanupDeletedUsers: presence removal, account deletion, the batch commit and their error logging are left to the backend; the job's null result, which does not depend on them, is not modelled.
