/** The value helpers of the storefront: slugs, truncation, stock status,
    warranty day arithmetic, relative time, Indian phone numbers, the email
    shape and the text of a CSV export. Time is in milliseconds and `now`
    is a parameter. */
module Helpers {
  import opened Wrappers
  import opened Seqs
  import opened Text
  import opened Js
  import opened Constants

  // ---------------------------------------------------------------- slugs

  /** What `.replace(/[^\w\s-]/g, '')` keeps. */
  predicate IsSlugSource(c: char)
  {
    IsWordChar(c) || IsWhiteSpace(c) || c == '-'
  }

  /** What `/[\s_-]+/` matches one character of. */
  predicate IsSeparator(c: char)
  {
    IsWhiteSpace(c) || c == '_' || c == '-'
  }

  predicate IsSlugChar(c: char)
  {
    ('a' <= c <= 'z') || IsDigit(c) || c == '-'
  }

  predicate NoDoubleDash(s: string)
  {
    forall i :: 1 <= i < |s| ==> !(s[i - 1] == '-' && s[i] == '-')
  }

  /** A well-formed slug: lower-case letters, digits and single dashes, with
      no dash at either end. */
  predicate IsSlug(s: string)
  {
    (forall i :: 0 <= i < |s| ==> IsSlugChar(s[i])) &&
    (s != [] ==> s[0] != '-' && s[|s| - 1] != '-') &&
    NoDoubleDash(s)
  }

  function DropSeparators(s: string): (r: string)
    ensures |r| <= |s| && r == s[|s| - |r|..]
    ensures r != [] ==> !IsSeparator(r[0])
  {
    if s != [] && IsSeparator(s[0]) then DropSeparators(s[1..]) else s
  }

  /** `.replace(/[\s_-]+/g, '-')`: every maximal run of separators becomes
      one dash; other characters pass through. */
  function Collapse(s: string): (r: string)
    decreases |s|
    ensures s == [] <==> r == []
  {
    if s == [] then []
    else if IsSeparator(s[0]) then "-" + Collapse(DropSeparators(s[1..]))
    else [s[0]] + Collapse(s[1..])
  }

  /** The collapsed text holds dashes and the input's non-separator
      characters only, starts with the input's first character when that
      is not a separator, and never has two dashes in a row. */
  lemma {:induction false} CollapseShape(s: string)
    decreases |s|
    ensures forall c :: c in Collapse(s) ==> c == '-' || (!IsSeparator(c) && c in s)
    ensures s != [] && !IsSeparator(s[0]) ==> Collapse(s)[0] == s[0]
    ensures NoDoubleDash(Collapse(s))
  {
    if s != [] {
      if IsSeparator(s[0]) {
        var rest := DropSeparators(s[1..]);
        CollapseShape(rest);
        assert forall c :: c in rest ==> c in s;
        ConsNoDoubleDash('-', Collapse(rest));
      } else {
        CollapseShape(s[1..]);
        assert forall c :: c in s[1..] ==> c in s;
        ConsNoDoubleDash(s[0], Collapse(s[1..]));
      }
    }
  }

  lemma ConsNoDoubleDash(c: char, t: string)
    requires NoDoubleDash(t)
    requires c == '-' ==> t == [] || t[0] != '-'
    ensures NoDoubleDash([c] + t)
  {
    var s := [c] + t;
    forall i | 1 <= i < |s| ensures !(s[i - 1] == '-' && s[i] == '-') {
      if i > 1 {
        assert s[i - 1] == t[i - 2] && s[i] == t[i - 1];
      }
    }
  }

  function DropDashesStart(s: string): (r: string)
    ensures |r| <= |s| && r == s[|s| - |r|..]
    ensures r != [] ==> r[0] != '-'
  {
    if s != [] && s[0] == '-' then DropDashesStart(s[1..]) else s
  }

  function DropDashesEnd(s: string): (r: string)
    ensures |r| <= |s| && r == s[..|r|]
    ensures r != [] ==> r[|r| - 1] != '-'
  {
    if s != [] && s[|s| - 1] == '-' then DropDashesEnd(s[..|s| - 1]) else s
  }

  /** `.replace(/^-+|-+$/g, '')`. */
  function StripDashes(s: string): (r: string)
    ensures r != [] ==> r[0] != '-' && r[|r| - 1] != '-'
    ensures exists i :: Occurs(s, r, i)
  {
    var t := DropDashesStart(s);
    var r := DropDashesEnd(t);
    PrefixOfSuffixOccurs(s, t, r);
    r
  }

  /** `generateSlug(title)`: lower-case, trim, drop characters other than
      word characters, white space and dashes, collapse separator runs to a
      dash, and strip dashes at the ends. Every slug it makes is well
      formed. */
  function GenerateSlug(title: string): (r: string)
    ensures IsSlug(r)
  {
    var kept := Filter(Trim(Lower(title)), IsSlugSource);
    KeptChars(title);
    CollapsedSlugChars(kept);
    var collapsed := Collapse(kept);
    SliceKeepsShape(collapsed, StripDashes(collapsed));
    StripDashes(collapsed)
  }

  /** Collapsing kept characters leaves slug characters without double
      dashes. */
  lemma CollapsedSlugChars(kept: string)
    requires forall c :: c in kept ==> IsSlugSource(c) && !('A' <= c <= 'Z')
    ensures forall i :: 0 <= i < |Collapse(kept)| ==> IsSlugChar(Collapse(kept)[i])
    ensures NoDoubleDash(Collapse(kept))
  {
    var collapsed := Collapse(kept);
    CollapseShape(kept);
    forall i | 0 <= i < |collapsed| ensures IsSlugChar(collapsed[i]) {
      var c := collapsed[i];
      assert c in collapsed;
      if c != '-' {
        SlugCharClass(c);
      }
    }
  }

  lemma SlugCharClass(c: char)
    requires IsSlugSource(c) && !('A' <= c <= 'Z') && !IsSeparator(c)
    ensures 'a' <= c <= 'z' || IsDigit(c)
  {
  }

  /** What survives the filter is a slug source character and not an ASCII
      capital. */
  lemma KeptChars(title: string)
    ensures forall c :: c in Filter(Trim(Lower(title)), IsSlugSource) ==> IsSlugSource(c) && !('A' <= c <= 'Z')
  {
    var lowered := Lower(title);
    var trimmed := Trim(lowered);
    TrimmedLowerNoCapitals(title);
    forall c | c in Filter(trimmed, IsSlugSource) ensures IsSlugSource(c) && !('A' <= c <= 'Z') {
      FilterMembership(trimmed, IsSlugSource, c);
    }
  }

  lemma TrimmedLowerNoCapitals(title: string)
    ensures forall c :: c in Trim(Lower(title)) ==> !('A' <= c <= 'Z')
  {
    var lowered := Lower(title);
    LowerProperties(title);
    NoCapitalsInSlice(lowered, Trim(lowered));
  }

  lemma NoCapitalsInSlice(s: string, r: string)
    requires forall i :: 0 <= i < |s| ==> !('A' <= s[i] <= 'Z')
    requires exists k :: Occurs(s, r, k)
    ensures forall c :: c in r ==> !('A' <= c <= 'Z')
  {
    var k :| Occurs(s, r, k);
    forall j | 0 <= j < |r| ensures r[j] == s[k + j] {
      assert s[k..k + |r|][j] == s[k + j];
    }
  }

  /** A slice of a string of slug characters without double dashes keeps
      both properties. */
  lemma SliceKeepsShape(s: string, r: string)
    requires forall i :: 0 <= i < |s| ==> IsSlugChar(s[i])
    requires NoDoubleDash(s)
    requires exists i :: Occurs(s, r, i)
    ensures forall i :: 0 <= i < |r| ==> IsSlugChar(r[i])
    ensures NoDoubleDash(r)
  {
    var k :| Occurs(s, r, k);
    forall i | 0 <= i < |r| ensures r[i] == s[k + i] {
      assert s[k..k + |r|][i] == s[k + i];
    }
    forall i | 1 <= i < |r| ensures !(r[i - 1] == '-' && r[i] == '-') {
      assert r[i - 1] == s[k + i - 1] && r[i] == s[k + i];
    }
  }

  /** A well-formed slug passes through every step unchanged. */
  lemma SlugFixpoint(s: string)
    requires IsSlug(s)
    ensures GenerateSlug(s) == s
  {
    assert Lower(s) == s;
    TrimOfTrimmed(s);
    FilterAll(s, IsSlugSource);
    CollapseOfSlug(s);
    assert DropDashesStart(s) == s;
    assert DropDashesEnd(s) == s;
  }

  lemma {:induction false} CollapseOfSlug(s: string)
    requires forall i :: 0 <= i < |s| ==> IsSlugChar(s[i])
    requires NoDoubleDash(s)
    decreases |s|
    ensures Collapse(s) == s
  {
    if s != [] {
      SlugTail(s);
      CollapseOfSlug(s[1..]);
      CollapseStep(s);
    }
  }

  lemma SlugTail(s: string)
    requires s != []
    requires forall i :: 0 <= i < |s| ==> IsSlugChar(s[i])
    requires NoDoubleDash(s)
    ensures forall i :: 0 <= i < |s[1..]| ==> IsSlugChar(s[1..][i])
    ensures NoDoubleDash(s[1..])
  {
    var rest := s[1..];
    assert forall i :: 0 <= i < |rest| ==> rest[i] == s[i + 1];
    forall i | 1 <= i < |rest| ensures !(rest[i - 1] == '-' && rest[i] == '-') {
      assert rest[i - 1] == s[i] && rest[i] == s[i + 1];
    }
  }

  /** One step of the collapse over a slug whose tail is already fixed. */
  lemma CollapseStep(s: string)
    requires s != []
    requires forall i :: 0 <= i < |s| ==> IsSlugChar(s[i])
    requires NoDoubleDash(s)
    requires Collapse(s[1..]) == s[1..]
    ensures Collapse(s) == s
  {
    if s[0] == '-' {
      if |s| > 1 {
        SlugCharNotSeparator(s[1]);
      }
      CollapseDashHead(s);
    } else {
      SlugCharNotSeparator(s[0]);
      CollapseCharHead(s);
    }
  }

  lemma SlugCharNotSeparator(c: char)
    requires IsSlugChar(c) && c != '-'
    ensures !IsSeparator(c)
  {
  }

  lemma CollapseDashHead(s: string)
    requires s != [] && s[0] == '-'
    requires |s| > 1 ==> !IsSeparator(s[1])
    requires Collapse(s[1..]) == s[1..]
    ensures Collapse(s) == s
  {
    var rest := s[1..];
    assert rest != [] ==> rest[0] == s[1];
    assert DropSeparators(rest) == rest;
    assert s == "-" + rest;
  }

  lemma CollapseCharHead(s: string)
    requires s != [] && !IsSeparator(s[0])
    requires Collapse(s[1..]) == s[1..]
    ensures Collapse(s) == s
  {
    assert s == [s[0]] + s[1..];
  }

  /** Generating a slug from a slug changes nothing. */
  lemma GenerateSlugIdempotent(title: string)
    ensures GenerateSlug(GenerateSlug(title)) == GenerateSlug(title)
  {
    SlugFixpoint(GenerateSlug(title));
  }

  // ----------------------------------------------------------- truncation

  /** `truncateText(text, maxLength)`: missing text and text within the
      limit come back unchanged; longer text is cut to `maxLength`
      characters, trimmed, and given an ellipsis. */
  function TruncateText(text: Option<string>, maxLength: int): (r: Option<string>)
    ensures text.None? ==> r.None?
    ensures text.Some? && (text.value == [] || |text.value| <= maxLength) ==> r == text
    ensures text.Some? && text.value != [] && |text.value| > maxLength ==>
              r.Some? && EllipsisOf(r.value, text.value[..if maxLength < 0 then 0 else maxLength])
  {
    match text
    case None => None
    case Some(s) =>
      if s == [] || |s| <= maxLength then text
      else
        var cut := s[..if maxLength < 0 then 0 else maxLength];
        Ellipsis(cut);
        Some(Trim(cut) + "...")
  }

  /** `r` is the prefix `cut` without its surrounding white space, followed
      by an ellipsis; so it is at most three characters longer than `cut`. */
  ghost predicate EllipsisOf(r: string, cut: string)
  {
    3 <= |r| <= |cut| + 3 && r[|r| - 3..] == "..." && IsTrimOf(r[..|r| - 3], cut)
  }

  lemma Ellipsis(cut: string)
    ensures EllipsisOf(Trim(cut) + "...", cut)
  {
    TrimIsTrimmedAt(cut);
    var r := Trim(cut) + "...";
    assert r[..|r| - 3] == Trim(cut);
  }

  /** The default limit of 100 characters. */
  function TruncateTextDefault(text: Option<string>): Option<string>
  {
    TruncateText(text, 100)
  }

  // --------------------------------------------------------- stock status

  datatype StockStatus = OutOfStock | LimitedStock | InStock
  {
    function Text(): string
    {
      match this
      case OutOfStock => "Out of Stock"
      case LimitedStock => "Limited Stock"
      case InStock => "In Stock"
    }

    function Color(): string
    {
      match this
      case OutOfStock => "text-red-600"
      case LimitedStock => "text-yellow-600"
      case InStock => "text-green-600"
    }
  }

  /** `getStockStatus(stockCount, isLimitedStock)`. */
  function GetStockStatus(stockCount: Value, isLimitedStock: Value): (r: StockStatus)
    ensures r == OutOfStock <==> stockCount == Num(0)
    ensures r == LimitedStock <==> stockCount != Num(0) && (Truthy(isLimitedStock) || AtMost(stockCount, 3))
  {
    if StrictEquals(stockCount, Num(0)) then OutOfStock
    else if Truthy(isLimitedStock) || AtMost(stockCount, 3) then LimitedStock
    else InStock
  }

  /** A zero stock is out of stock even with the limited flag set, and a
      record without a stock count is in stock unless flagged. */
  lemma StockStatusEdges(flag: Value)
    ensures GetStockStatus(Num(0), Bool(true)) == OutOfStock
    ensures GetStockStatus(Undefined, flag) == if Truthy(flag) then LimitedStock else InStock
    ensures GetStockStatus(Num(3), Bool(false)) == LimitedStock
    ensures GetStockStatus(Num(4), Bool(false)) == InStock
  {
    assert !AtMost(Undefined, 3);
  }

  // ------------------------------------------------------ warranty arithmetic

  /** `daysUntil(date)` at instant `now`: 0 for a missing date, otherwise
      the millisecond difference divided by a day and rounded up. */
  function DaysUntil(date: Option<int>, now: int): (days: int)
    ensures date.None? ==> days == 0
    ensures date.Some? ==> (days - 1) * DAY_MS < date.value - now <= days * DAY_MS
  {
    match date
    case None => 0
    case Some(d) => -((now - d) / DAY_MS)
  }

  /** `isWarrantyExpiringSoon(date, daysThreshold)`: the end lies in the
      future by at most the threshold in whole days; a missing date is
      never expiring. */
  predicate IsWarrantyExpiringSoon(date: Option<int>, now: int, daysThreshold: int): (r: bool)
    ensures date.None? ==> !r
    ensures date.Some? ==> (r <==> 0 < date.value - now <= daysThreshold * DAY_MS)
  {
    var days := DaysUntil(date, now);
    if date.Some? then DaysWithin(date.value, now, daysThreshold); days > 0 && days <= daysThreshold
    else false
  }

  /** `isWarrantyExpired(date)`: the end lies at least a full day in the
      past; a missing date is never expired. */
  predicate IsWarrantyExpired(date: Option<int>, now: int): (r: bool)
    ensures date.None? ==> !r
    ensures date.Some? ==> (r <==> date.value - now <= -DAY_MS)
  {
    DaysUntil(date, now) < 0
  }

  lemma DaysWithin(d: int, now: int, daysThreshold: int)
    ensures var days := DaysUntil(Some(d), now);
      days > 0 && days <= daysThreshold <==> 0 < d - now <= daysThreshold * DAY_MS
  {
    var days := DaysUntil(Some(d), now);
    if days > 0 && days <= daysThreshold {
      assert days * DAY_MS <= daysThreshold * DAY_MS;
    }
    if 0 < d - now <= daysThreshold * DAY_MS {
      assert days > 0;
    }
  }

  /** The two predicates never hold together; a missing date is neither;
      and for the whole day after the end instant the warranty is neither
      expiring nor expired. */
  lemma WarrantyPredicatesDisjoint(date: Option<int>, now: int, daysThreshold: int)
    ensures !(IsWarrantyExpiringSoon(date, now, daysThreshold) && IsWarrantyExpired(date, now))
    ensures date.None? ==> !IsWarrantyExpiringSoon(date, now, daysThreshold) && !IsWarrantyExpired(date, now)
    ensures date.Some? && -DAY_MS < date.value - now <= 0 ==>
              !IsWarrantyExpiringSoon(date, now, daysThreshold) && !IsWarrantyExpired(date, now)
  {
  }

  // -------------------------------------------------------- relative time

  datatype RelativeTime = NoDate | JustNow | MinutesAgo(minutes: int) | HoursAgo(hours: int) | DaysAgo(days: int) | ShortDate
  {
    /** The text shown; `shortDate` is the locale date the fallback writes. */
    function Render(shortDate: string): string
    {
      match this
      case NoDate => ""
      case JustNow => "Just now"
      case MinutesAgo(m) => IntToString(m) + (if m == 1 then " minute ago" else " minutes ago")
      case HoursAgo(h) => IntToString(h) + (if h == 1 then " hour ago" else " hours ago")
      case DaysAgo(d) => IntToString(d) + (if d == 1 then " day ago" else " days ago")
      case ShortDate => shortDate
    }
  }

  /** `formatRelativeTime(date)` at instant `now`: the elapsed time floored
      to seconds, minutes, hours and days, and the first bucket it fits. */
  function FormatRelativeTime(date: Option<int>, now: int): (r: RelativeTime)
    ensures r == NoDate <==> date.None?
    ensures r.MinutesAgo? ==> 1 <= r.minutes < 60
    ensures r.HoursAgo? ==> 1 <= r.hours < 24
    ensures r.DaysAgo? ==> 1 <= r.days < 7
  {
    match date
    case None => NoDate
    case Some(d) =>
      var secs := (now - d) / 1000;
      var mins := secs / 60;
      var hours := mins / 60;
      var days := hours / 24;
      if secs < 60 then JustNow
      else if mins < 60 then MinutesAgo(mins)
      else if hours < 24 then HoursAgo(hours)
      else if days < 7 then DaysAgo(days)
      else ShortDate
  }

  const MINUTE_MS: int := 60 * 1000
  const HOUR_MS: int := 60 * MINUTE_MS

  lemma FloorSteps(x: int)
    ensures (x / 1000) / 60 == x / MINUTE_MS
    ensures ((x / 1000) / 60) / 60 == x / HOUR_MS
    ensures (((x / 1000) / 60) / 60) / 24 == x / DAY_MS
  {
    FloorToMinutes(x);
    FloorToHours(x);
    FloorToDays(x);
  }

  lemma FloorToMinutes(x: int)
    ensures (x / 1000) / 60 == x / 60000
  {
    var q := x / 1000;
    assert x == 60000 * (q / 60) + (1000 * (q % 60) + x % 1000);
  }

  lemma FloorToHours(x: int)
    ensures (x / 60000) / 60 == x / 3600000
  {
    var q := x / 60000;
    assert x == 3600000 * (q / 60) + (60000 * (q % 60) + x % 60000);
  }

  lemma FloorToDays(x: int)
    ensures (x / 3600000) / 24 == x / 86400000
  {
    var q := x / 3600000;
    assert x == 86400000 * (q / 24) + (3600000 * (q % 24) + x % 3600000);
  }

  /** The buckets by elapsed milliseconds: under a minute (a future date
      included) is "Just now"; then whole minutes under an hour, whole
      hours under a day, whole days under a week, and the date after. */
  lemma RelativeTimeBuckets(d: int, now: int)
    ensures var e := now - d; var rt := FormatRelativeTime(Some(d), now);
      (rt == JustNow <==> e < MINUTE_MS) &&
      (rt.MinutesAgo? <==> MINUTE_MS <= e < HOUR_MS) &&
      (rt.MinutesAgo? ==> rt.minutes == e / MINUTE_MS && 1 <= rt.minutes < 60) &&
      (rt.HoursAgo? <==> HOUR_MS <= e < DAY_MS) &&
      (rt.HoursAgo? ==> rt.hours == e / HOUR_MS && 1 <= rt.hours < 24) &&
      (rt.DaysAgo? <==> DAY_MS <= e < 7 * DAY_MS) &&
      (rt.DaysAgo? ==> rt.days == e / DAY_MS && 1 <= rt.days < 7) &&
      (rt == ShortDate <==> e >= 7 * DAY_MS)
  {
    FloorSteps(now - d);
  }

  // --------------------------------------------------------------- phones

  /** What `.replace(/[\s-]/g, '')` keeps. */
  predicate IsPhoneKept(c: char)
  {
    !IsWhiteSpace(c) && c != '-'
  }

  function StripSpacesAndHyphens(phone: string): string
  {
    Filter(phone, IsPhoneKept)
  }

  /** `/^[6-9]\d{9}$/`: ten digits, the first of them 6 to 9. */
  predicate IsIndianMobile(s: string)
  {
    |s| == 10 && '6' <= s[0] <= '9' && AllDigits(s)
  }

  /** `isValidPhone(phone)`: once spaces and hyphens are removed, what is
      left is an Indian mobile number; so it is made of digits only, and
      those digits are the number. */
  predicate IsValidPhone(phone: string): (r: bool)
    ensures r ==> Digits(phone) == StripSpacesAndHyphens(phone) && IsIndianMobile(Digits(phone))
  {
    KeptAreDigits(phone);
    IsIndianMobile(StripSpacesAndHyphens(phone))
  }

  /** When every character kept by the stripping is a digit, keeping the
      digits alone gives the same text. */
  lemma {:induction false} KeptAreDigits(s: string)
    ensures AllDigits(Filter(s, IsPhoneKept)) ==> Filter(s, IsDigit) == Filter(s, IsPhoneKept)
  {
    if s != [] && AllDigits(Filter(s, IsPhoneKept)) {
      var kept := Filter(s, IsPhoneKept);
      var rest := Filter(s[1..], IsPhoneKept);
      assert kept == (if IsPhoneKept(s[0]) then [s[0]] else []) + rest;
      forall i | 0 <= i < |rest| ensures IsDigit(rest[i]) {
        if IsPhoneKept(s[0]) {
          assert rest[i] == kept[i + 1];
        } else {
          assert rest[i] == kept[i];
        }
      }
      KeptAreDigits(s[1..]);
      if IsPhoneKept(s[0]) {
        assert kept[0] == s[0];
      }
    }
  }

  /** Spaces and hyphens anywhere are ignored; any other stray character,
      such as a `+91` prefix's `+`, makes the number invalid. */
  lemma ValidPhoneSeparators(a: string, b: string)
    requires IsValidPhone(a + b)
    ensures IsValidPhone(a + " " + b) && IsValidPhone(a + "-" + b)
    ensures !IsValidPhone("+" + a + b)
  {
    FilterAppend(a, b, IsPhoneKept);
    StripInsert(a, b, ' ');
    StripInsert(a, b, '-');
    FilterAppend("+", a + b, IsPhoneKept);
    assert Filter("+", IsPhoneKept) == "+";
    assert "+" + a + b == "+" + (a + b);
    assert StripSpacesAndHyphens("+" + a + b)[0] == '+';
  }

  lemma StripInsert(a: string, b: string, c: char)
    requires !IsPhoneKept(c)
    ensures StripSpacesAndHyphens(a + [c] + b) == StripSpacesAndHyphens(a + b)
  {
    FilterAppend(a + [c], b, IsPhoneKept);
    FilterAppend(a, [c], IsPhoneKept);
    FilterAppend(a, b, IsPhoneKept);
    assert Filter([c], IsPhoneKept) == [];
  }

  /** `phone.replace(/\D/g, '')`. */
  function Digits(phone: string): string
  {
    Filter(phone, IsDigit)
  }

  /** `formatPhone(phone)`: exactly ten digits become `+91 AAAAA BBBBB`;
      anything else is returned as given. */
  function FormatPhone(phone: string): (r: string)
    ensures |Digits(phone)| != 10 ==> r == phone
    ensures |Digits(phone)| == 10 ==> r == "+91 " + Digits(phone)[..5] + " " + Digits(phone)[5..]
  {
    var cleaned := Digits(phone);
    if |cleaned| == 10 then "+91 " + cleaned[..5] + " " + cleaned[5..] else phone
  }

  /** A formatted number has twelve digits, so formatting again leaves it. */
  lemma FormatPhoneIdempotent(phone: string)
    ensures FormatPhone(FormatPhone(phone)) == FormatPhone(phone)
  {
    var cleaned := Digits(phone);
    if |cleaned| == 10 {
      forall x | x in cleaned ensures IsDigit(x) {
        FilterMembership(phone, IsDigit, x);
      }
      var a, b := cleaned[..5], cleaned[5..];
      assert forall x :: x in a ==> x in cleaned;
      assert forall x :: x in b ==> x in cleaned;
      DigitsOfFormatted(a, b);
    }
  }

  /** The digits of `+91 a b` for runs of digits `a` and `b`. */
  lemma DigitsOfFormatted(a: string, b: string)
    requires forall x :: x in a ==> IsDigit(x)
    requires forall x :: x in b ==> IsDigit(x)
    ensures Filter("+91 " + a + " " + b, IsDigit) == "91" + a + b
  {
    PrefixDigits();
    var head, tail := "+91 " + a, " " + b;
    FilterAll(a, IsDigit);
    FilterAppend("+91 ", a, IsDigit);
    assert Filter(head, IsDigit) == "91" + a;
    FilterAll(b, IsDigit);
    FilterAppend(" ", b, IsDigit);
    assert Filter(tail, IsDigit) == b;
    assert "+91 " + a + " " + b == head + tail;
    FilterAppend(head, tail, IsDigit);
  }

  /** The fixed characters of the format contribute only the 9 and the 1. */
  lemma PrefixDigits()
    ensures Filter("+91 ", IsDigit) == "91"
    ensures Filter(" ", IsDigit) == []
  {
    var space := Filter(" ", IsDigit);
    assert " "[1..] == [];
    assert space == [];
    assert "1 "[1..] == " ";
    assert Filter("1 ", IsDigit) == "1";
    assert "91 "[1..] == "1 ";
    assert Filter("91 ", IsDigit) == "91";
    assert "+91 "[1..] == "91 ";
  }

  // ---------------------------------------------------------------- email

  predicate IsEmailChar(c: char)
  {
    !IsWhiteSpace(c) && c != '@'
  }

  predicate AllEmailChars(s: string)
  {
    forall c :: c in s ==> IsEmailChar(c)
  }

  /** The regular expression `^[^\s@]+@[^\s@]+\.[^\s@]+$` as a split of the
      text into its three non-empty runs. */
  predicate EmailSplit(email: string, a: string, b: string, c: string)
  {
    email == a + "@" + b + "." + c &&
    a != [] && b != [] && c != [] &&
    AllEmailChars(a) && AllEmailChars(b) && AllEmailChars(c)
  }

  /** The text after the first `@`, if any. */
  function Domain(email: string, at: int): string
  {
    if 0 <= at < |email| then email[at + 1..] else []
  }

  /** `isValidEmail(email)`: the text matches the pattern. */
  predicate IsValidEmail(email: string): (r: bool)
    ensures r <==> exists a, b, c :: EmailSplit(email, a, b, c)
  {
    EmailShapeMatchesPattern(email);
    EmailShape(email)
  }

  /** The same pattern decided left to right: the text has no white space,
      its first `@` has something before it, and after it comes a domain
      with no further `@` and a dot that is neither its first nor its last
      character. */
  predicate EmailShape(email: string)
  {
    var at := IndexFrom(email, "@", 0);
    var domain := Domain(email, at);
    at > 0 &&
    (forall c :: c in email ==> !IsWhiteSpace(c)) &&
    '@' !in domain &&
    (exists j :: 0 < j < |domain| - 1 && domain[j] == '.')
  }

  /** The left-to-right decision agrees with the pattern, both ways. */
  lemma EmailShapeMatchesPattern(email: string)
    ensures EmailShape(email) <==> exists a, b, c :: EmailSplit(email, a, b, c)
  {
    if EmailShape(email) {
      ValidEmailSplits(email);
    }
    if exists a, b, c :: EmailSplit(email, a, b, c) {
      var a, b, c :| EmailSplit(email, a, b, c);
      SplitEmailValid(email, a, b, c);
    }
  }

  lemma ValidEmailSplits(email: string)
    requires EmailShape(email)
    ensures exists a, b, c :: EmailSplit(email, a, b, c)
  {
    var at := IndexFrom(email, "@", 0);
    IndexOfChar(email, '@');
    assert "@" == ['@'];
    var domain := Domain(email, at);
    var j :| 0 < j < |domain| - 1 && domain[j] == '.';
    SplitAtIndices(email, at, j);
  }

  /** Cutting at the first `@` and at a dot inside the domain gives the
      pattern's three runs. */
  lemma SplitAtIndices(email: string, at: int, j: int)
    requires 0 < at < |email| && email[at] == '@' && '@' !in email[..at]
    requires '@' !in email[at + 1..]
    requires forall ch :: ch in email ==> !IsWhiteSpace(ch)
    requires 0 < j < |email| - at - 2 && email[at + 1 + j] == '.'
    ensures EmailSplit(email, email[..at], email[at + 1..at + 1 + j], email[at + 2 + j..])
  {
    var a, b, c := email[..at], email[at + 1..at + 1 + j], email[at + 2 + j..];
    assert email == a + [email[at]] + email[at + 1..];
    assert email[at + 1..] == b + [email[at + 1 + j]] + c;
    forall ch | ch in a ensures IsEmailChar(ch) {
      var i :| 0 <= i < |a| && a[i] == ch;
      assert ch == email[i];
    }
    forall ch | ch in b ensures IsEmailChar(ch) {
      var i :| 0 <= i < |b| && b[i] == ch;
      assert ch == email[at + 1 + i] == email[at + 1..][i];
    }
    forall ch | ch in c ensures IsEmailChar(ch) {
      var i :| 0 <= i < |c| && c[i] == ch;
      assert ch == email[at + 2 + j + i] == email[at + 1..][j + 1 + i];
    }
  }

  lemma SplitEmailValid(email: string, a: string, b: string, c: string)
    requires EmailSplit(email, a, b, c)
    ensures EmailShape(email)
  {
    var domain := b + "." + c;
    assert email == a + "@" + domain;
    assert IndexFrom(email, "@", 0) == |a| by {
      FirstAt(email, a, domain);
    }
    assert Domain(email, |a|) == domain;
    assert domain[|b|] == '.';
    assert forall ch :: ch in email ==> !IsWhiteSpace(ch) by {
      assert forall ch :: ch in email ==> ch in a || ch == '@' || ch in b || ch == '.' || ch in c;
    }
  }

  /** Text free of `@` followed by an `@`: that `@` is the first one. */
  lemma FirstAt(email: string, a: string, domain: string)
    requires email == a + "@" + domain && '@' !in a
    ensures IndexFrom(email, "@", 0) == |a|
  {
    IndexOfChar(email, '@');
    assert "@" == ['@'];
    assert email[|a|] == '@';
    forall i | 0 <= i < |a| ensures email[i] != '@' {
      assert email[i] == a[i] && a[i] in a;
    }
    OccursChar(email, '@', |a|);
  }

  // ------------------------------------------------------------------ CSV

  /** One row of an export: its columns in the order the object literal
      lists them. */
  type Row = seq<(string, Value)>

  /** `row[header]` on the row object. */
  function Lookup(row: Row, key: string): Value
  {
    if row == [] then Undefined
    else if row[0].0 == key then row[0].1
    else Lookup(row[1..], key)
  }

  /** The lookup finds the first column with the key. */
  lemma {:induction false} LookupFirst(row: Row, key: string, k: int)
    requires 0 <= k < |row| && row[k].0 == key
    requires forall j :: 0 <= j < k ==> row[j].0 != key
    ensures Lookup(row, key) == row[k].1
  {
    if k > 0 {
      LookupFirst(row[1..], key, k - 1);
    }
  }

  /** No object anywhere inside; such values are outside the model of
      `JSON.stringify`. */
  predicate NoObjects(v: Value)
    decreases v
  {
    match v
    case Obj(_) => false
    case Arr(es) => forall i :: 0 <= i < |es| ==> NoObjects(es[i])
    case _ => true
  }

  /** `JSON.stringify(v)` for values without objects. */
  function JsonText(v: Value): (r: string)
    requires NoObjects(v)
    decreases v
    ensures '\n' !in r
  {
    match v
    case Undefined => "null"
    case Null => "null"
    case Bool(b) => if b then "true" else "false"
    case Num(n) => IntToString(n)
    case NaN => "null"
    case Str(s) => JsonQuote(s)
    case Arr(es) => "[" + JsonElems(v, 0) + "]"
  }

  function JsonElems(a: Value, from: nat): (r: string)
    requires a.Arr? && from <= |a.elems| && NoObjects(a)
    decreases a, |a.elems| - from
    ensures '\n' !in r
  {
    if from == |a.elems| then []
    else
      var t := JsonText(a.elems[from]);
      if from + 1 == |a.elems| then t else t + "," + JsonElems(a, from + 1)
  }

  /** `JSON.stringify(row[header] || '')`. */
  function CsvCell(v: Value): (r: string)
    requires NoObjects(v)
    ensures !Truthy(v) ==> r == "\"\""
    ensures v.Str? && v.s != [] ==> r == JsonQuote(v.s)
    ensures '\n' !in r
  {
    if Truthy(v) then JsonText(v) else JsonText(Str(""))
  }

  predicate CsvReady(rows: seq<Row>)
  {
    forall i, j :: 0 <= i < |rows| && 0 <= j < |rows[i]| ==> NoObjects(rows[i][j].1)
  }

  function Headers(row: Row): (r: seq<string>)
    ensures |r| == |row| && forall k :: 0 <= k < |r| ==> r[k] == row[k].0
  {
    seq(|row|, k requires 0 <= k < |row| => row[k].0)
  }

  lemma LookupNoObjects(row: Row, key: string)
    requires forall j :: 0 <= j < |row| ==> NoObjects(row[j].1)
    ensures NoObjects(Lookup(row, key))
  {
    if row != [] && row[0].0 != key {
      LookupNoObjects(row[1..], key);
    }
  }

  function CsvLine(row: Row, headers: seq<string>): (r: string)
    requires forall j :: 0 <= j < |row| ==> NoObjects(row[j].1)
    ensures '\n' !in r
  {
    var cells := seq(|headers|, k requires 0 <= k < |headers| =>
      LookupNoObjects(row, headers[k]); CsvCell(Lookup(row, headers[k])));
    JoinNoChar(cells, ",", '\n');
    Join(cells, ",")
  }

  lemma {:induction false} JoinNoChar(parts: seq<string>, sep: string, c: char)
    requires c !in sep && forall k :: 0 <= k < |parts| ==> c !in parts[k]
    ensures c !in Join(parts, sep)
  {
    if |parts| > 1 {
      JoinNoChar(parts[1..], sep, c);
    }
  }

  /** The text `downloadCSV(data)` builds: nothing for an empty list;
      otherwise the first row's keys as the header line, then one line per
      row with each header's cell JSON-quoted, lines joined by newlines. */
  function CsvText(rows: seq<Row>): (r: Option<string>)
    requires CsvReady(rows)
    ensures r.None? <==> rows == []
  {
    if rows == [] then None
    else
      var headers := Headers(rows[0]);
      Some(Join([Join(headers, ",")] + CsvLines(rows, headers), "\n"))
  }

  function CsvLines(rows: seq<Row>, headers: seq<string>): (r: seq<string>)
    requires CsvReady(rows)
    ensures |r| == |rows|
    ensures forall k :: 0 <= k < |r| ==> '\n' !in r[k]
  {
    seq(|rows|, k requires 0 <= k < |rows| => CsvLine(rows[k], headers))
  }

  /** With header names free of line breaks, the export has exactly one
      header line and one line per row, in row order. */
  lemma CsvLineCount(rows: seq<Row>)
    requires CsvReady(rows) && rows != []
    requires forall k :: 0 <= k < |rows[0]| ==> '\n' !in rows[0][k].0
    ensures var headers := Headers(rows[0]);
      Split(CsvText(rows).value, "\n") == [Join(headers, ",")] + CsvLines(rows, headers)
  {
    var headers := Headers(rows[0]);
    JoinNoChar(headers, ",", '\n');
    var lines := [Join(headers, ",")] + CsvLines(rows, headers);
    SplitJoinChar(lines, '\n');
  }

  /** Splitting on a one-character separator that no part contains undoes
      the join. */
  lemma {:induction false} SplitJoinChar(parts: seq<string>, c: char)
    requires |parts| >= 1
    requires forall k :: 0 <= k < |parts| ==> c !in parts[k]
    ensures Split(Join(parts, [c]), [c]) == parts
  {
    var s := Join(parts, [c]);
    var a := parts[0];
    if |parts| == 1 {
      assert s == a;
      NoCharNoOccurrence(a, c, 0);
    } else {
      var rest := Join(parts[1..], [c]);
      assert s == a + [c] + rest;
      assert Occurs(s, [c], |a|) by {
        assert s[|a|..|a| + 1] == [c];
      }
      forall i | 0 <= i < |a| ensures !Occurs(s, [c], i) {
        assert s[i] == a[i];
        assert s[i..i + 1] == [s[i]];
      }
      assert IndexFrom(s, [c], 0) == |a|;
      assert s[..|a|] == a;
      assert s[|a| + 1..] == rest;
      SplitJoinChar(parts[1..], c);
    }
  }

  lemma NoCharNoOccurrence(s: string, c: char, from: nat)
    requires c !in s && from <= |s|
    ensures IndexFrom(s, [c], from) == -1
  {
    IndexOfChar(s, c);
  }
}
