/**
 * How the extractor's output meets the validator's rules: which checks a
 * scraped record can fail, and why, and what that means for a whole run.
 */
module Pipeline {
  import opened Wrappers
  import opened Text
  import opened Extraction
  import opened Pagination
  import opened Validation

  /** The rating the extractor stores is always one the rating check accepts. */
  lemma ExtractedRatingAccepted(item: ItemInput, category: string)
    ensures !Violates(RatingValid, BuildRecord(item, category))
  {
    if FilledFields(item) >= 3 {
      assert StarRating(item.ratingClass.value) in ValidRatings;
    }
  }

  /**
   * What the "In stock" and "Out of stock" branches produce passes the
   * availability check: a captured digit string, "Yes" or "0".
   */
  lemma AvailabilityBranchesAccepted(raw: string)
    requires Contains(Strip(raw), InStockPhrase) || Contains(Strip(raw), OutOfStockPhrase)
    ensures Availability(raw) in AvailabilitySentinels || IntParses(Availability(raw))
  {
    var t := Strip(raw);
    var a := Availability(raw);
    AvailabilityRule(raw);
    if Contains(t, InStockPhrase) && a != "Yes" {
      var i :| 0 <= i < |t| && CountMatchAt(t, i) && a == CountAt(t, i);
      DigitsParse(a);
    }
  }

  /**
   * A scraped record fails the availability check only through the
   * pass-through branch: every element was found and the stripped stock
   * text holds neither phrase.
   */
  lemma ExtractedAvailabilityFlagged(item: ItemInput, category: string)
    requires Violates(AvailabilityFormat, BuildRecord(item, category))
    ensures FilledFields(item) == 4
    ensures var t := Strip(item.stockText.value);
      && !Contains(t, InStockPhrase) && !Contains(t, OutOfStockPhrase)
      && BuildRecord(item, category).availability == t
  {
    if FilledFields(item) == 4 {
      var raw := item.stockText.value;
      if Contains(Strip(raw), InStockPhrase) || Contains(Strip(raw), OutOfStockPhrase) {
        AvailabilityBranchesAccepted(raw);
      } else {
        AvailabilityRule(raw);
      }
    }
  }

  /** A scraped record fails the price check exactly when a price was converted and is negative. */
  lemma ExtractedPriceFlagged(item: ItemInput, category: string)
    ensures Violates(PriceNonNegative, BuildRecord(item, category))
            <==> FilledFields(item) >= 2 && item.price.value.amount < 0.0
  {
  }

  /**
   * A scraped record fails the title check exactly when the link was found
   * and its title attribute is blank; the "N/A" default passes.
   */
  lemma ExtractedTitleFlagged(item: ItemInput, category: string)
    ensures Violates(TitleNotEmpty, BuildRecord(item, category))
            <==> item.titleAttr.Some? && Blank(item.titleAttr.value)
  {
    if item.titleAttr.None? {
      assert !Blank(NA) by { assert !IsSpace(NA[0]); }
    }
  }

  /** A check that passes on two record lists passes on the two laid end to end. */
  lemma PassesAppend(rule: Rule, a: seq<Record>, b: seq<Record>)
    requires Passes(rule, a) && Passes(rule, b)
    ensures Passes(rule, a + b)
  {
    forall i | 0 <= i < |a + b| ensures !Violates(rule, (a + b)[i]) {
      if i < |a| {
        assert (a + b)[i] == a[i];
      } else {
        assert (a + b)[i] == b[i - |a|];
      }
    }
  }

  /** No record a page contributes fails the rating check. */
  lemma PageRatingsAccepted(p: Page)
    ensures Passes(RatingValid, PageOutput(p))
  {
    var here := PageOutput(p);
    forall i | 0 <= i < |here| ensures !Violates(RatingValid, here[i]) {
      ExtractedRatingAccepted(p.items[i], PageCategory(p));
    }
  }

  /** No record of a whole run, from page `n` on, fails the rating check. */
  lemma {:induction false} RunRatingsAccepted(pages: seq<Page>, n: nat)
    requires BrowserSupplies(pages) && 1 <= n <= |pages|
    ensures Passes(RatingValid, ScrapeFrom(pages, n))
    decreases MaxPages - n
  {
    var p := pages[n - 1];
    var here := PageOutput(p);
    PageRatingsAccepted(p);
    var rest: seq<Record> := if Advances(p, n) then ScrapeFrom(pages, n + 1) else [];
    assert Passes(RatingValid, rest) by {
      if Advances(p, n) {
        RunRatingsAccepted(pages, n + 1);
      }
    }
    PassesAppend(RatingValid, here, rest);
  }

  /** Validating a whole run never reports an invalid star rating. */
  lemma RunHasNoRatingErrors(pages: seq<Page>)
    requires BrowserSupplies(pages)
    ensures RuleErrors(RatingValid, ScrapeFrom(pages, 1)) == []
  {
    RunRatingsAccepted(pages, 1);
    RuleErrorsEmpty(RatingValid, ScrapeFrom(pages, 1));
  }

  /**
   * A page without a breadcrumb away from the start URL falls back to "N/A",
   * and the category check reports every one of its records.
   */
  lemma FallbackPageCategoryErrors(p: Page)
    requires p.hasProducts && p.breadcrumb.None? && p.url != StartUrl
    ensures |RuleErrors(CategoryNotEmpty, PageOutput(p))| == |p.items|
  {
    var rs := PageOutput(p);
    assert PageCategory(p) == NA;
    AllViolatingAllReported(CategoryNotEmpty, rs);
  }

  /** Without a breadcrumb, the start page's "Books/General" label passes the category check. */
  lemma StartPageCategoryAccepted(p: Page)
    requires p.breadcrumb.None? && p.url == StartUrl
    ensures Passes(CategoryNotEmpty, PageOutput(p))
  {
    assert PageCategory(p) == HomeCategory;
    assert !Blank(HomeCategory) by { assert !IsSpace(HomeCategory[0]); }
  }

  /** A breadcrumb that strips to something other than blank or "N/A" passes the category check. */
  lemma BreadcrumbCategoryAccepted(p: Page)
    requires p.breadcrumb.Some?
    requires var c := Strip(p.breadcrumb.value); c != [] && c != NA
    ensures Passes(CategoryNotEmpty, PageOutput(p))
  {
    var c := PageCategory(p);
    StripIdempotent(p.breadcrumb.value);
    assert Strip(c) == c;
  }
}
