/** The form validators: product, review, email and password. Each of the
    record validators starts from an empty set of errors and fills it with
    one check after another, a later message for the same field replacing
    an earlier one. A field that is present but not text where the source
    calls `trim()` on it throws a TypeError, modelled as `Failure`. */
module Validation {
  import opened Wrappers
  import opened Text
  import opened Js
  import opened Helpers

  const TITLE_REQUIRED: string := "Title is required"
  const PRICE_REQUIRED: string := "Valid price is required"
  const CATEGORY_REQUIRED: string := "Category is required"
  const BRAND_REQUIRED: string := "Brand is required"
  const IMAGE_REQUIRED: string := "At least one image is required"
  const TOO_MANY_IMAGES: string := "Maximum 10 images allowed"
  const RATING_RANGE: string := "Rating must be between 1 and 5"
  const COMMENT_TOO_SHORT: string := "Comment must be at least 10 characters"
  const COMMENT_TOO_LONG: string := "Comment must be less than 1000 characters"
  const PASSWORD_TOO_SHORT: string := "Password must be at least 6 characters"

  /** The keys an errors object can get. */
  datatype Field = Title | Price | Category | Brand | Images | Rating | Comment
  {
    function Key(): string
    {
      match this
      case Title => "title"
      case Price => "price"
      case Category => "category"
      case Brand => "brand"
      case Images => "images"
      case Rating => "rating"
      case Comment => "comment"
    }
  }

  /** `{ isValid, errors }`, the errors keyed by field. */
  datatype Validation = Validation(isValid: bool, errors: map<Field, string>)

  /** `!v || v.trim().length < n`, where `expr` names `v` in the TypeError a
      non-text value raises. */
  function TrimmedShorter(v: Value, n: nat, expr: string): (r: Result<bool>)
    ensures r.Failure? <==> Truthy(v) && !v.Str?
    ensures r.Success? && !Truthy(v) ==> r.value
    ensures r.Success? && v.Str? ==> (r.value <==> v.s == [] || |Trim(v.s)| < n)
  {
    if !Truthy(v) then Success(true)
    else if v.Str? then Success(|Trim(v.s)| < n)
    else Failure(expr + ".trim is not a function")
  }

  /** `!v || v.trim().length === 0`: missing or blank. */
  lemma BlankMeansAllWhiteSpace(v: Value, expr: string)
    requires TrimmedShorter(v, 1, expr).Success?
    ensures TrimmedShorter(v, 1, expr).value <==> !v.Str? || AllWhiteSpace(v.s)
  {
    if v.Str? {
      assert |Trim(v.s)| < 1 <==> Trim(v.s) == [];
      assert v.s == [] ==> AllWhiteSpace(v.s);
    }
  }

  /** `if (cond) errors[key] = message`. */
  function AddIf(errors: map<Field, string>, cond: bool, key: Field, message: string): (r: map<Field, string>)
    ensures cond ==> key in r && r[key] == message
    ensures r == map[] <==> errors == map[] && !cond
  {
    if cond then errors[key := message] else errors
  }

  // ----------------------------------------------------------- product

  /** `!price || price < 0`. */
  predicate PriceInvalid(price: Value)
  {
    !Truthy(price) || Below(price, 0)
  }

  /** `!images || images.length === 0`. */
  predicate NoImages(images: Value)
  {
    !Truthy(images) || StrictEquals(OptProp(images, "length"), Num(0))
  }

  /** `images && images.length > 10`. */
  predicate TooManyImages(images: Value)
  {
    Truthy(images) && Above(OptProp(images, "length"), 10)
  }

  /** The errors object `validateProduct` fills from the outcome of each
      check, in the order it makes them; the image-count message replaces
      the missing-image one. */
  function ProductErrorMap(titleBlank: bool, priceInvalid: bool, categoryBlank: bool, brandBlank: bool,
                           noImages: bool, tooManyImages: bool): (e: map<Field, string>)
    ensures Title in e <==> titleBlank
    ensures Price in e <==> priceInvalid
    ensures Category in e <==> categoryBlank
    ensures Brand in e <==> brandBlank
    ensures Images in e <==> noImages || tooManyImages
    ensures tooManyImages ==> e[Images] == TOO_MANY_IMAGES
    ensures noImages && !tooManyImages ==> e[Images] == IMAGE_REQUIRED
    ensures e == map[] <==> !titleBlank && !priceInvalid && !categoryBlank && !brandBlank && !noImages && !tooManyImages
  {
    var e1 := AddIf(map[], titleBlank, Title, TITLE_REQUIRED);
    var e2 := AddIf(e1, priceInvalid, Price, PRICE_REQUIRED);
    var e3 := AddIf(e2, categoryBlank, Category, CATEGORY_REQUIRED);
    var e4 := AddIf(e3, brandBlank, Brand, BRAND_REQUIRED);
    var e5 := AddIf(e4, noImages, Images, IMAGE_REQUIRED);
    AddIf(e5, tooManyImages, Images, TOO_MANY_IMAGES)
  }

  /** What `validateProduct(productData)` decides: a TypeError from the
      first non-text title, category or brand, otherwise the errors of the
      six checks. */
  function ProductErrors(d: Record): (r: Result<map<Field, string>>)
  {
    var title := TrimmedShorter(Get(d, "title"), 1, "productData.title");
    var category := TrimmedShorter(Get(d, "category"), 1, "productData.category");
    var brand := TrimmedShorter(Get(d, "brand"), 1, "productData.brand");
    if title.Failure? then Failure(title.message)
    else if category.Failure? then Failure(category.message)
    else if brand.Failure? then Failure(brand.message)
    else
      Success(ProductErrorMap(title.value, PriceInvalid(Get(d, "price")), category.value, brand.value,
                              NoImages(Get(d, "images")), TooManyImages(Get(d, "images"))))
  }

  /** `validateProduct(productData)`, check by check. */
  method ValidateProduct(d: Record) returns (r: Result<Validation>)
    ensures ProductErrors(d).Failure? ==> r.Failure?
    ensures ProductErrors(d).Success? ==>
              r == Success(Validation(ProductErrors(d).value == map[], ProductErrors(d).value))
  {
    var errors: map<Field, string> := map[];
    var title := TrimmedShorter(Get(d, "title"), 1, "productData.title");
    if title.Failure? {
      return Failure(title.message);
    }
    if title.value {
      errors := errors[Title := TITLE_REQUIRED];
    }
    var price := Get(d, "price");
    if PriceInvalid(price) {
      errors := errors[Price := PRICE_REQUIRED];
    }
    var category := TrimmedShorter(Get(d, "category"), 1, "productData.category");
    if category.Failure? {
      return Failure(category.message);
    }
    if category.value {
      errors := errors[Category := CATEGORY_REQUIRED];
    }
    var brand := TrimmedShorter(Get(d, "brand"), 1, "productData.brand");
    if brand.Failure? {
      return Failure(brand.message);
    }
    if brand.value {
      errors := errors[Brand := BRAND_REQUIRED];
    }
    var images := Get(d, "images");
    if NoImages(images) {
      errors := errors[Images := IMAGE_REQUIRED];
    }
    if TooManyImages(images) {
      errors := errors[Images := TOO_MANY_IMAGES];
    }
    return Success(Validation(|errors| == 0, errors));
  }

  /** The price check rejects a missing price and a price of 0 as well as
      a negative one, and passes every positive price. */
  lemma ProductPriceRule(d: Record, n: int)
    requires ProductErrors(d).Success?
    ensures Get(d, "price") == Undefined ==> Price in ProductErrors(d).value
    ensures Get(d, "price") == Num(n) ==> (Price in ProductErrors(d).value <==> n <= 0)
  {
    var price := Get(d, "price");
    if price == Num(n) {
      assert Numeric(price) == Some(n);
      assert PriceInvalid(price) <==> n <= 0;
    }
  }

  /** An image list passes iff it holds 1 to 10 images; an empty list gets
      the required message and a longer one the maximum message. */
  lemma ProductImagesRule(d: Record, es: seq<Value>)
    requires ProductErrors(d).Success? && Get(d, "images") == Arr(es)
    ensures Images !in ProductErrors(d).value <==> 1 <= |es| <= 10
    ensures |es| == 0 ==> ProductErrors(d).value[Images] == IMAGE_REQUIRED
    ensures |es| > 10 ==> ProductErrors(d).value[Images] == TOO_MANY_IMAGES
  {
    assert OptProp(Arr(es), "length") == Num(|es|);
  }

  /** A product with text fields is valid iff title, category and brand
      are not blank, the price is a positive number, and there are 1 to 10
      images. */
  lemma ProductValidIff(d: Record, es: seq<Value>)
    requires Get(d, "title").Str? && Get(d, "category").Str? && Get(d, "brand").Str?
    requires Get(d, "images") == Arr(es)
    ensures ProductErrors(d).Success?
    ensures ProductErrors(d).value == map[] <==>
              !AllWhiteSpace(Get(d, "title").s) && !AllWhiteSpace(Get(d, "category").s) &&
              !AllWhiteSpace(Get(d, "brand").s) &&
              !PriceInvalid(Get(d, "price")) && 1 <= |es| <= 10
  {
    BlankMeansAllWhiteSpace(Get(d, "title"), "productData.title");
    BlankMeansAllWhiteSpace(Get(d, "category"), "productData.category");
    BlankMeansAllWhiteSpace(Get(d, "brand"), "productData.brand");
    ProductImagesRule(d, es);
  }

  /** A present title that is not text raises the TypeError, before any
      other check can report. */
  lemma ProductTitleNotText(d: Record)
    requires Truthy(Get(d, "title")) && !Get(d, "title").Str?
    ensures ProductErrors(d) == Failure("productData.title.trim is not a function")
  {
  }

  // ------------------------------------------------------------ review

  /** What the checks of `validateReview` decide, in the order it makes
      them. */
  function ReviewErrors(d: Record): (r: Result<map<Field, string>>)
  {
    var rating := Get(d, "rating");
    var comment := Get(d, "comment");
    var short := TrimmedShorter(comment, 10, "reviewData.comment");
    if short.Failure? then Failure(short.message)
    else
      var e1 := AddIf(map[], !Truthy(rating) || Below(rating, 1) || Above(rating, 5), Rating, RATING_RANGE);
      var e2 := AddIf(e1, short.value, Comment, COMMENT_TOO_SHORT);
      Success(AddIf(e2, Truthy(comment) && comment.Str? && |comment.s| > 1000, Comment, COMMENT_TOO_LONG))
  }

  /** `validateReview(reviewData)`, check by check. */
  method ValidateReview(d: Record) returns (r: Result<Validation>)
    ensures ReviewErrors(d).Failure? ==> r.Failure?
    ensures ReviewErrors(d).Success? ==>
              r == Success(Validation(ReviewErrors(d).value == map[], ReviewErrors(d).value))
  {
    var errors: map<Field, string> := map[];
    var rating := Get(d, "rating");
    if !Truthy(rating) || Below(rating, 1) || Above(rating, 5) {
      errors := errors[Rating := RATING_RANGE];
    }
    var comment := Get(d, "comment");
    var short := TrimmedShorter(comment, 10, "reviewData.comment");
    if short.Failure? {
      return Failure(short.message);
    }
    if short.value {
      errors := errors[Comment := COMMENT_TOO_SHORT];
    }
    if Truthy(comment) && comment.Str? && |comment.s| > 1000 {
      errors := errors[Comment := COMMENT_TOO_LONG];
    }
    return Success(Validation(|errors| == 0, errors));
  }

  /** A numeric rating passes iff it is 1 to 5; a missing or empty rating
      fails. Non-empty text is compared as the number `Number` reads from
      it: text spelling a number passes iff that number is 1 to 5, and
      text that spells no number fails no comparison, so it passes. */
  lemma ReviewRatingRule(d: Record, n: int, s: string)
    requires ReviewErrors(d).Success?
    ensures Get(d, "rating") == Num(n) ==> (Rating in ReviewErrors(d).value <==> !(1 <= n <= 5))
    ensures Get(d, "rating") == Undefined ==> Rating in ReviewErrors(d).value
    ensures Get(d, "rating") == Str([]) ==> Rating in ReviewErrors(d).value
    ensures Get(d, "rating") == Str(s) && s != [] ==>
      (Rating in ReviewErrors(d).value <==> StringToNumber(s).Num? && !(1 <= StringToNumber(s).n <= 5))
  {
    var rating := Get(d, "rating");
    RatingEntry(d);
    if rating == Str(s) && s != [] {
      RatingText(s);
    }
  }

  /** The rating entry is set exactly when the rating check fails. */
  lemma RatingEntry(d: Record)
    requires ReviewErrors(d).Success?
    ensures var rating := Get(d, "rating");
      Rating in ReviewErrors(d).value <==> !Truthy(rating) || Below(rating, 1) || Above(rating, 5)
  {
  }

  lemma RatingText(s: string)
    requires s != []
    ensures !Truthy(Str(s)) || Below(Str(s), 1) || Above(Str(s), 5) <==>
      StringToNumber(s).Num? && !(1 <= StringToNumber(s).n <= 5)
  {
  }

  /** The text "7" fails like the number 7, "3" passes like 3, and "great"
      reads as `NaN` and passes. */
  lemma ReviewRatingTexts(d: Record)
    requires ReviewErrors(d).Success?
    ensures Get(d, "rating") == Str("7") ==> Rating in ReviewErrors(d).value
    ensures Get(d, "rating") == Str("3") ==> Rating !in ReviewErrors(d).value
    ensures Get(d, "rating") == Str("great") ==> Rating !in ReviewErrors(d).value
  {
    TextNumbers();
    ReviewRatingRule(d, 0, "7");
    ReviewRatingRule(d, 0, "3");
    ReviewRatingRule(d, 0, "great");
  }

  lemma TextNumbers()
    ensures StringToNumber("7") == Num(7) && StringToNumber("3") == Num(3) && StringToNumber("great") == NaN
  {
    SmallNumberText(7);
    assert [DigitChar(7)] == "7";
    SmallNumberText(3);
    assert [DigitChar(3)] == "3";
    assert Trim("great") == "great" by {
      TrimOfTrimmed("great");
    }
    assert !AllDigits("great") by {
      assert !IsDigit("great"[0]);
    }
  }

  lemma SmallNumberText(n: nat)
    requires n < 10
    ensures StringToNumber([DigitChar(n)]) == Num(n)
  {
    NumberOfNatText(n);
    assert NatToString(n) == [DigitChar(n)];
  }

  /** A text comment fails iff its trimmed length is under 10 or its raw
      length is over 1000; over 1000 the too-long message replaces the
      too-short one, even when the trimmed text is short. */
  lemma ReviewCommentRule(d: Record, s: string)
    requires Get(d, "comment") == Str(s)
    ensures ReviewErrors(d).Success?
    ensures Comment in ReviewErrors(d).value <==> |Trim(s)| < 10 || |s| > 1000
    ensures |s| > 1000 ==> ReviewErrors(d).value[Comment] == COMMENT_TOO_LONG
    ensures |s| <= 1000 && |Trim(s)| < 10 ==> ReviewErrors(d).value[Comment] == COMMENT_TOO_SHORT
  {
    var rating := Get(d, "rating");
    var short := TrimmedShorter(Str(s), 10, "reviewData.comment");
    assert short == Success(|Trim(s)| < 10) by {
      if s == [] {
        assert Trim(s) == [];
      }
    }
    var e1 := AddIf(map[], !Truthy(rating) || Below(rating, 1) || Above(rating, 5), Rating, RATING_RANGE);
    assert Comment !in e1;
    var e2 := AddIf(e1, short.value, Comment, COMMENT_TOO_SHORT);
    var long := Truthy(Str(s)) && |s| > 1000;
    assert long <==> |s| > 1000;
    assert ReviewErrors(d) == Success(AddIf(e2, long, Comment, COMMENT_TOO_LONG));
  }

  // ---------------------------------------------------------- password

  datatype PasswordCheck = PasswordCheck(isValid: bool, errors: seq<string>)

  /** `validatePassword(password)`: reading `length` of a missing password
      throws; a length under 6 adds the one message. A value without a
      numeric length fails no comparison and passes. */
  method ValidatePassword(password: Value) returns (r: Result<PasswordCheck>)
    ensures r.Failure? <==> IsNullish(password)
    ensures r.Success? ==> (r.value.isValid <==> r.value.errors == [])
    ensures r.Success? ==> (r.value.errors == [] <==> !Below(Prop(password, "length").value, 6))
    ensures r.Success? && !r.value.isValid ==> r.value.errors == [PASSWORD_TOO_SHORT]
  {
    var length := Prop(password, "length");
    if length.Failure? {
      return Failure(length.message);
    }
    var errors: seq<string> := [];
    if Below(length.value, 6) {
      errors := errors + [PASSWORD_TOO_SHORT];
    }
    return Success(PasswordCheck(|errors| == 0, errors));
  }

  /** For text, the length alone decides. */
  lemma PasswordTextRule(s: string)
    ensures Prop(Str(s), "length") == Success(Num(|s|))
    ensures !Below(Prop(Str(s), "length").value, 6) <==> |s| >= 6
  {
  }

  // ------------------------------------------------------------- email

  /** `validateEmail(email)`: the email pattern tested against the text of
      the value; for text, exactly the three-run split of the pattern. */
  function ValidateEmail(email: Value): (r: bool)
    ensures email.Str? ==> (r <==> exists a, b, c :: EmailSplit(email.s, a, b, c))
  {
    if email.Str? then
      IsValidEmail(email.s)
    else IsValidEmail(ToStr(email))
  }

  /** A missing email is tested as the text "undefined", which has no `@`. */
  lemma ValidateEmailMissing()
    ensures !ValidateEmail(Undefined)
  {
    var t := ToStr(Undefined);
    IndexOfChar(t, '@');
    assert "@" == ['@'];
    assert '@' !in t;
  }
}
