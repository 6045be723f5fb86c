/**
 * `searchCarListings`: keep the listings that pass every active filter, in their
 * original order, then shuffle the survivors with the fixed seed 42.
 */
module CarSearch {
  import opened Wrappers
  import opened JsStrings
  import SeededShuffle

  /**
   * One parsed row of the listings table. Every column is a string; the columns the
   * filters read have their own field, the remaining descriptive columns (engine,
   * colours, features, image URLs, ...) are kept by name in `details`.
   */
  datatype CarListing = CarListing(
    vin: string,
    year: string,
    make: string,
    model: string,
    bodyType: string,
    trim: string,
    miles: string,
    price: string,
    location: string,
    dealership: string,
    details: map<string, string>)

  /** The optional search filters; `None` is an argument the caller left out. */
  datatype Filters = Filters(
    make: Option<string>,
    minYear: Option<int>,
    maxYear: Option<int>,
    model: Option<string>,
    bodyType: Option<string>,
    minMiles: Option<int>,
    maxMiles: Option<int>,
    minPrice: Option<int>,
    maxPrice: Option<int>,
    location: Option<string>,
    dealership: Option<string>)

  const NoFilters := Filters(None, None, None, None, None, None, None, None, None, None, None)

  /** The seed every search shuffles with. */
  const FIXED_SEED: nat := 42

  /** JavaScript truthiness of a string argument: absent and "" are falsy. */
  predicate TextGiven(filter: Option<string>) {
    filter.Some? && filter.value != ""
  }

  /** JavaScript truthiness of a numeric bound: absent and 0 are falsy. */
  predicate BoundGiven(bound: Option<int>) {
    bound.Some? && bound.value != 0
  }

  /**
   * A substring filter: the listing is rejected when the filter is given, is not
   * blank after trimming, and the lower-cased field does not contain the
   * lower-cased (untrimmed) filter text.
   */
  predicate TextPasses(field: string, filter: Option<string>) {
    !(TextGiven(filter) && Trim(filter.value) != "" && !Contains(Lower(field), Lower(filter.value)))
  }

  /** The exact body-type filter: rejected when the filter is given and differs from the field. */
  predicate TypePasses(bodyType: string, filter: Option<string>) {
    !(TextGiven(filter) && bodyType != filter.value)
  }

  /** `Number(listing.Year || '')`, or None when that is NaN or the year is empty or blank. */
  function YearValue(year: string): Option<int> {
    var n := ParseNum(OrDefault(year, ""));
    if n.None? || year == "" || Trim(year) == "" then None else n
  }

  /** `Number(field || '0')` for the mileage and the price; None is NaN. */
  function AmountValue(field: string): Option<int> {
    ParseNum(OrDefault(field, "0"))
  }

  /**
   * A min/max filter on a numeric reading: an invalid reading is rejected when
   * either bound is given; a valid one is rejected below a given minimum or above
   * a given maximum.
   */
  predicate RangePasses(reading: Option<int>, low: Option<int>, high: Option<int>) {
    match reading
    case None => !(BoundGiven(low) || BoundGiven(high))
    case Some(n) => !(BoundGiven(low) && n < low.value) && !(BoundGiven(high) && n > high.value)
  }

  /** The filter callback: a listing is kept when every filter, in the source's order, passes. */
  predicate Matches(listing: CarListing, filters: Filters) {
    TextPasses(listing.make, filters.make)
    && RangePasses(YearValue(listing.year), filters.minYear, filters.maxYear)
    && TextPasses(listing.model, filters.model)
    && TypePasses(listing.bodyType, filters.bodyType)
    && RangePasses(AmountValue(listing.miles), filters.minMiles, filters.maxMiles)
    && RangePasses(AmountValue(listing.price), filters.minPrice, filters.maxPrice)
    && TextPasses(listing.location, filters.location)
    && TextPasses(listing.dealership, filters.dealership)
  }

  /** `listings.filter(callback)`: the matching listings, in their original order. */
  function FilterListings(listings: seq<CarListing>, filters: Filters): (kept: seq<CarListing>)
    ensures |kept| <= |listings|
    ensures forall x :: x in kept <==> x in listings && Matches(x, filters)
  {
    if listings == [] then []
    else (if Matches(listings[0], filters) then [listings[0]] else []) + FilterListings(listings[1..], filters)
  }

  /** `sub` is obtained from `s` by deleting elements, keeping the rest in order. */
  predicate IsSubsequence<T(==)>(sub: seq<T>, s: seq<T>)
    decreases |s|
  {
    if s == [] then sub == []
    else (sub != [] && sub[0] == s[0] && IsSubsequence(sub[1..], s[1..])) || IsSubsequence(sub, s[1..])
  }

  /** Filtering keeps the order of the listings it keeps. */
  lemma {:induction false} FilterIsSubsequence(listings: seq<CarListing>, filters: Filters)
    ensures IsSubsequence(FilterListings(listings, filters), listings)
  {
    if listings != [] {
      var rest := FilterListings(listings[1..], filters);
      FilterIsSubsequence(listings[1..], filters);
      if Matches(listings[0], filters) {
        assert FilterListings(listings, filters) == [listings[0]] + rest;
        assert ([listings[0]] + rest)[1..] == rest;
      } else {
        assert FilterListings(listings, filters) == rest;
      }
    }
  }

  /** Each matching listing is kept as often as it occurs; no other listing is kept. */
  lemma {:induction false} FilterCount(listings: seq<CarListing>, filters: Filters, x: CarListing)
    ensures multiset(FilterListings(listings, filters))[x]
         == if Matches(x, filters) then multiset(listings)[x] else 0
  {
    if listings != [] {
      FilterCount(listings[1..], filters, x);
      assert listings == [listings[0]] + listings[1..];
      assert multiset(listings) == multiset{listings[0]} + multiset(listings[1..]);
    }
  }

  /** Filtering an already filtered list with the same filters changes nothing. */
  lemma {:induction false} FilterIdempotent(listings: seq<CarListing>, filters: Filters)
    ensures FilterListings(FilterListings(listings, filters), filters) == FilterListings(listings, filters)
  {
    if listings != [] {
      var rest := FilterListings(listings[1..], filters);
      FilterIdempotent(listings[1..], filters);
      if Matches(listings[0], filters) {
        var kept := [listings[0]] + rest;
        assert FilterListings(listings, filters) == kept;
        assert kept[0] == listings[0] && kept[1..] == rest;
        assert FilterListings(kept, filters) == [listings[0]] + FilterListings(rest, filters);
      } else {
        assert FilterListings(listings, filters) == rest;
      }
    }
  }

  /** With no filter given every listing matches. */
  lemma NoFiltersMatchAll(listing: CarListing)
    ensures Matches(listing, NoFilters)
  {
  }

  /** With no filter given nothing is dropped. */
  lemma {:induction false} NoFiltersKeepAll(listings: seq<CarListing>)
    ensures FilterListings(listings, NoFilters) == listings
  {
    if listings != [] {
      NoFiltersMatchAll(listings[0]);
      NoFiltersKeepAll(listings[1..]);
    }
  }

  /**
   * `searchCarListings(listings, filters)`: filter, then shuffle the survivors with
   * the fixed seed.
   */
  method SearchCarListings(listings: seq<CarListing>, filters: Filters) returns (results: seq<CarListing>)
    ensures results == SeededShuffle.Shuffled(FilterListings(listings, filters), FIXED_SEED)
    ensures multiset(results) == multiset(FilterListings(listings, filters))
    ensures forall x :: x in results <==> x in listings && Matches(x, filters)
  {
    var filtered := FilterListings(listings, filters);
    ghost var drawn: nat;
    results, drawn := SeededShuffle.ShuffleWithSeed(filtered, FIXED_SEED);
    assert forall x :: x in results <==> x in multiset(filtered);
  }

  // ---------------------------------------------------------------------------
  // The per-filter rules, each stated as "this filter contributes exactly this
  // condition on top of the others".

  datatype TextField = MakeField | ModelField | LocationField | DealershipField

  function TextOf(listing: CarListing, field: TextField): string {
    match field
    case MakeField => listing.make
    case ModelField => listing.model
    case LocationField => listing.location
    case DealershipField => listing.dealership
  }

  function WithText(filters: Filters, field: TextField, value: Option<string>): Filters {
    match field
    case MakeField => filters.(make := value)
    case ModelField => filters.(model := value)
    case LocationField => filters.(location := value)
    case DealershipField => filters.(dealership := value)
  }

  /** An empty or whitespace-only substring filter imposes nothing: it acts as if it were left out. */
  lemma BlankTextFilterIsNoOp(listing: CarListing, filters: Filters, field: TextField, text: string)
    requires AllWhitespace(text)
    ensures Matches(listing, WithText(filters, field, Some(text))) == Matches(listing, WithText(filters, field, None))
  {
    TrimEmptyIffAllWhitespace(text);
  }

  /**
   * A substring filter with visible text keeps exactly the listings whose lower-cased
   * field contains the lower-cased text, as typed (it is not trimmed).
   */
  lemma TextFilterRule(listing: CarListing, filters: Filters, field: TextField, text: string)
    requires !AllWhitespace(text)
    ensures Matches(listing, WithText(filters, field, Some(text)))
        <==> Matches(listing, WithText(filters, field, None)) && Contains(Lower(TextOf(listing, field)), Lower(text))
  {
    TrimEmptyIffAllWhitespace(text);
  }

  /** Substring filters ignore case: two filter texts equal up to case select the same listings. */
  lemma TextFilterIgnoresCase(listing: CarListing, filters: Filters, field: TextField, text: string, other: string)
    requires Lower(text) == Lower(other)
    ensures Matches(listing, WithText(filters, field, Some(text))) == Matches(listing, WithText(filters, field, Some(other)))
  {
    LowerKeepsBlankness(text, other);
    TrimEmptyIffAllWhitespace(text);
    TrimEmptyIffAllWhitespace(other);
  }

  /** A given body type keeps exactly the listings with that literal body type; an empty one imposes nothing. */
  lemma TypeFilterRule(listing: CarListing, filters: Filters, bodyType: string)
    ensures bodyType != "" ==>
      (Matches(listing, filters.(bodyType := Some(bodyType)))
       <==> Matches(listing, filters.(bodyType := None)) && listing.bodyType == bodyType)
    ensures bodyType == "" ==>
      Matches(listing, filters.(bodyType := Some(bodyType))) == Matches(listing, filters.(bodyType := None))
  {
  }

  datatype RangeField = YearRange | MilesRange | PriceRange

  /** The numeric reading a range filter compares; None stands for an invalid value. */
  function Reading(listing: CarListing, field: RangeField): Option<int> {
    match field
    case YearRange => YearValue(listing.year)
    case MilesRange => AmountValue(listing.miles)
    case PriceRange => AmountValue(listing.price)
  }

  function LowOf(filters: Filters, field: RangeField): Option<int> {
    match field
    case YearRange => filters.minYear
    case MilesRange => filters.minMiles
    case PriceRange => filters.minPrice
  }

  function HighOf(filters: Filters, field: RangeField): Option<int> {
    match field
    case YearRange => filters.maxYear
    case MilesRange => filters.maxMiles
    case PriceRange => filters.maxPrice
  }

  function WithRange(filters: Filters, field: RangeField, low: Option<int>, high: Option<int>): Filters {
    match field
    case YearRange => filters.(minYear := low, maxYear := high)
    case MilesRange => filters.(minMiles := low, maxMiles := high)
    case PriceRange => filters.(minPrice := low, maxPrice := high)
  }

  /** A bound of 0 is falsy, so it acts as if it were left out. */
  lemma ZeroBoundIsUnset(listing: CarListing, filters: Filters, field: RangeField, low: Option<int>, high: Option<int>)
    ensures Matches(listing, WithRange(filters, field, Some(0), high)) == Matches(listing, WithRange(filters, field, None, high))
    ensures Matches(listing, WithRange(filters, field, low, Some(0))) == Matches(listing, WithRange(filters, field, low, None))
  {
  }

  /** Fail-closed: a listing whose reading is invalid survives only when neither bound of that range is given. */
  lemma InvalidReadingFailsClosed(listing: CarListing, filters: Filters, field: RangeField)
    requires Reading(listing, field).None?
    ensures Matches(listing, filters)
        <==> Matches(listing, WithRange(filters, field, None, None))
             && !BoundGiven(LowOf(filters, field)) && !BoundGiven(HighOf(filters, field))
  {
  }

  /** A valid reading must lie within every given bound, both bounds inclusive. */
  lemma ValidReadingInclusive(listing: CarListing, filters: Filters, field: RangeField, n: int)
    requires Reading(listing, field) == Some(n)
    ensures Matches(listing, filters)
        <==> Matches(listing, WithRange(filters, field, None, None))
             && (BoundGiven(LowOf(filters, field)) ==> LowOf(filters, field).value <= n)
             && (BoundGiven(HighOf(filters, field)) ==> n <= HighOf(filters, field).value)
  {
  }

  /** The year is invalid exactly when it is blank or not a number; otherwise it is the number. */
  lemma YearReadingRule(year: string)
    ensures YearValue(year).None? <==> AllWhitespace(year) || ParseNum(year).None?
    ensures YearValue(year).Some? ==> YearValue(year) == ParseNum(year)
  {
    TrimEmptyIffAllWhitespace(year);
  }

  /**
   * Mileage and price are invalid exactly when they are not a number; a blank field
   * reads as 0, unlike a blank year.
   */
  lemma AmountReadingRule(field: string)
    ensures AmountValue(field).None? <==> ParseNum(field).None?
    ensures AllWhitespace(field) ==> AmountValue(field) == Some(0) && YearValue(field) == None
  {
    TrimEmptyIffAllWhitespace(field);
    ParseNumOfDecimal(0);
  }

  // ---------------------------------------------------------------------------
  // Worked examples.

  function Sample(year: string, make: string, miles: string, price: string): CarListing {
    CarListing("VIN", year, make, "Model", "sedan", "Base", miles, price, "Oakland CA", "Dealer", map[])
  }

  /** A blank price reads as 0, so a minimum price of 10000 drops the BMW and keeps the Ford priced at `n`. */
  lemma MinPriceScenario(n: nat)
    requires n >= 10000
    ensures FilterListings([Sample("2019", "BMW", "", ""), Sample("2021", "Ford", "", Decimal(n))],
                           NoFilters.(minPrice := Some(10000)))
         == [Sample("2021", "Ford", "", Decimal(n))]
  {
    var bmw, ford := Sample("2019", "BMW", "", ""), Sample("2021", "Ford", "", Decimal(n));
    var filters := NoFilters.(minPrice := Some(10000));
    ParseNumOfDecimal(0);
    assert AmountValue(bmw.price) == Some(0);
    assert !Matches(bmw, filters);
    ParseNumOfDecimal(n);
    assert AmountValue(ford.price) == Some(n);
    assert Matches(ford, filters);
    assert FilterListings([ford], filters) == [ford];
    assert [bmw, ford][1..] == [ford];
  }

  /** The same blank price passes a maximum price, where a blank year fails a maximum year and a year "0" passes it. */
  lemma BlankFieldsDiffer()
    ensures Matches(Sample("2019", "BMW", "", ""), NoFilters.(maxPrice := Some(50000)))
    ensures !Matches(Sample("", "BMW", "", ""), NoFilters.(maxYear := Some(2025)))
    ensures Matches(Sample("0", "BMW", "", ""), NoFilters.(maxYear := Some(2025)))
  {
    ParseNumOfDecimal(0);
    assert Decimal(0) == "0";
    NoFiltersMatchAll(Sample("2019", "BMW", "", ""));
    NoFiltersMatchAll(Sample("0", "BMW", "", ""));
    ValidReadingInclusive(Sample("2019", "BMW", "", ""), NoFilters.(maxPrice := Some(50000)), PriceRange, 0);
    assert YearValue("") == None;
    assert YearValue("0") == Some(0);
    ValidReadingInclusive(Sample("0", "BMW", "", ""), NoFilters.(maxYear := Some(2025)), YearRange, 0);
  }

  /** A non-numeric mileage fails closed under a minimum mileage and passes when no mileage bound is given. */
  lemma NonNumericMilesScenario()
    ensures !Matches(Sample("2020", "Audi", "n/a", "1"), NoFilters.(minMiles := Some(10000)))
    ensures Matches(Sample("2020", "Audi", "n/a", "1"), NoFilters)
  {
    assert Trim("n/a") == "n/a";
    assert AmountValue("n/a") == None;
    NoFiltersMatchAll(Sample("2020", "Audi", "n/a", "1"));
  }

  /** The make filter "bmw" keeps a BMW: the test ignores case. */
  lemma LowerCaseMakeExample()
    ensures Matches(Sample("2020", "BMW", "", ""), NoFilters.(make := Some("bmw")))
  {
    var bmw := Sample("2020", "BMW", "", "");
    NoFiltersMatchAll(bmw);
    assert Lower("BMW") == "bmw" == Lower("bmw");
    assert !IsJsWhitespace("bmw"[0]);
    TextFilterRule(bmw, NoFilters, MakeField, "bmw");
  }

  /** The make filter " bmw" drops a BMW: the filter text is not trimmed before the test. */
  lemma UntrimmedMakeExample()
    ensures !Matches(Sample("2020", "BMW", "", ""), NoFilters.(make := Some(" bmw")))
  {
    var bmw := Sample("2020", "BMW", "", "");
    assert Lower("BMW") == "bmw";
    assert Lower(" bmw") == " bmw";
    assert !IsJsWhitespace(" bmw"[1]);
    TextFilterRule(bmw, NoFilters, MakeField, " bmw");
    assert !Contains("", " bmw");
    assert !Contains("w", " bmw");
    assert !Contains("mw", " bmw");
    assert !Contains("bmw", " bmw");
  }

  /** A make filter of spaces keeps a BMW: blank text is no filter. */
  lemma BlankMakeExample()
    ensures Matches(Sample("2020", "BMW", "", ""), NoFilters.(make := Some("   ")))
  {
    var bmw := Sample("2020", "BMW", "", "");
    NoFiltersMatchAll(bmw);
    BlankTextFilterIsNoOp(bmw, NoFilters, MakeField, "   ");
  }
}
