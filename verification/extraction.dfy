/**
 * The field extractor: what one book container on a catalog page turns into.
 * The browser is gone; each element lookup the script performs is an input
 * that is either present (with the text or attribute it would read) or
 * missing, and the float conversion of the price is given by its outcome.
 */
module Extraction {
  import opened Wrappers
  import opened Text

  /** The sentinel for "unknown": the default of title, rating and availability. */
  const NA: string := "N/A"
  const InStockPhrase: string := "In stock"
  const OutOfStockPhrase: string := "Out of stock"
  const AvailableSuffix: string := " available)"

  /** The class tokens the rating selector recognises. */
  const RatingWords: set<string> := {"One", "Two", "Three", "Four", "Five"}

  /** The star ratings the validator accepts: the rating words and the sentinel. */
  const ValidRatings: set<string> := RatingWords + {NA}

  /** Outcome of `float(...)` on the price text with the pound sign removed and stripped. */
  datatype PriceOutcome = Parsed(amount: real) | Unparsable

  /**
   * One product container, as the lookups made on it would find it.
   * `None` stands for a lookup that raises "no such element".
   */
  datatype ItemInput = ItemInput(
    titleAttr: Option<string>,       // `title` attribute of the `h3 > a` link
    price: Option<PriceOutcome>,     // conversion of the `price_color` text
    ratingClass: Option<string>,     // `class` attribute of `p.star-rating`
    stockText: Option<string>)       // text of the `instock` element

  /** One scraped book: the five keys of each dictionary appended to the record list. */
  datatype Record = Record(
    title: string,
    price: real,
    starRating: string,
    availability: string,
    category: string)

  /** Which way out of the per-item `try` block the extraction took. */
  datatype Outcome = Complete | MissingElement | BadPrice

  // ----- star rating -----

  /** The first token that is a rating word, or the sentinel when there is none. */
  function FirstRating(tokens: seq<string>): (r: string)
    ensures r in ValidRatings
    ensures r == NA <==> forall k :: 0 <= k < |tokens| ==> tokens[k] !in RatingWords
    ensures r != NA ==> exists k :: 0 <= k < |tokens| && tokens[k] == r
                                    && forall m :: 0 <= m < k ==> tokens[m] !in RatingWords
  {
    if tokens == [] then NA
    else if tokens[0] in RatingWords then tokens[0]
    else
      var r := FirstRating(tokens[1..]);
      assert forall k :: 0 < k < |tokens| ==> tokens[k] == tokens[1..][k - 1];
      r
  }

  /** The rating read from a `class` attribute: its whitespace-separated tokens, first rating word wins. */
  function StarRating(classAttr: string): (r: string)
    ensures r in ValidRatings
  {
    FirstRating(Split(classAttr))
  }

  // ----- availability -----

  /** The end of the run of ASCII digits that starts at `i`. */
  function DigitRunEnd(s: string, i: nat): (j: nat)
    requires i <= |s|
    ensures i <= j <= |s|
    ensures forall k :: i <= k < j ==> IsDigit(s[k])
    ensures j == |s| || !IsDigit(s[j])
    decreases |s| - i
  {
    if i == |s| || !IsDigit(s[i]) then i else DigitRunEnd(s, i + 1)
  }

  /**
   * The pattern `\((\d+) available\)` matches at `i`. The greedy digit run
   * must be maximal: a shorter run is followed by a digit, never by the space.
   */
  predicate CountMatchAt(s: string, i: nat) {
    i < |s| && s[i] == '(' && DigitRunEnd(s, i + 1) > i + 1 && OccursAt(s, DigitRunEnd(s, i + 1), AvailableSuffix)
  }

  /** The digits the group captures for a match at `i`. */
  function CountAt(s: string, i: nat): (d: string)
    requires CountMatchAt(s, i)
    ensures d != [] && AllDigits(d)
  {
    s[i + 1..DigitRunEnd(s, i + 1)]
  }

  /** `re.search`: the leftmost position at or after `from` where the pattern matches. */
  function SearchCount(s: string, from: nat): (r: Option<nat>)
    requires from <= |s|
    ensures r.None? <==> forall i :: from <= i < |s| ==> !CountMatchAt(s, i)
    ensures r.Some? ==> from <= r.value < |s| && CountMatchAt(s, r.value)
                        && forall i :: from <= i < r.value ==> !CountMatchAt(s, i)
    decreases |s| - from
  {
    if from == |s| then None
    else if CountMatchAt(s, from) then Some(from)
    else SearchCount(s, from + 1)
  }

  /**
   * The availability value for a stock text. The text is stripped first;
   * "In stock" is tested before "Out of stock".
   */
  function Availability(raw: string): string {
    var t := Strip(raw);
    if Contains(t, InStockPhrase) then
      match SearchCount(t, 0)
      case Some(i) => CountAt(t, i)
      case None => "Yes"
    else if Contains(t, OutOfStockPhrase) then "0"
    else t
  }

  /**
   * The availability rule: with "In stock", the digits of the leftmost
   * "(<digits> available)" group, or "Yes" when there is none; otherwise
   * "0" with "Out of stock"; otherwise the stripped text unchanged.
   */
  lemma AvailabilityRule(raw: string)
    ensures var t, a := Strip(raw), Availability(raw);
      && (Contains(t, InStockPhrase) ==>
            (a == "Yes" <==> forall i :: 0 <= i < |t| ==> !CountMatchAt(t, i))
            && (a != "Yes" ==> exists i :: 0 <= i < |t| && CountMatchAt(t, i) && a == CountAt(t, i)
                                           && forall k :: 0 <= k < i ==> !CountMatchAt(t, k)))
      && (!Contains(t, InStockPhrase) && Contains(t, OutOfStockPhrase) ==> a == "0")
      && (!Contains(t, InStockPhrase) && !Contains(t, OutOfStockPhrase) ==> a == t)
  {
    var t := Strip(raw);
    if Contains(t, InStockPhrase) {
      match SearchCount(t, 0)
      case Some(i) =>
        assert IsDigit(CountAt(t, i)[0]);
      case None =>
    }
  }

  /** A digit string followed by a non-digit is exactly the digit run found there. */
  lemma {:induction false} DigitRunOver(s: string, i: nat, d: string)
    requires AllDigits(d) && i + |d| <= |s| && s[i..i + |d|] == d
    requires i + |d| == |s| || !IsDigit(s[i + |d|])
    ensures DigitRunEnd(s, i) == i + |d|
    decreases |d|
  {
    if d != [] {
      assert s[i] == d[0];
      assert s[i + 1..i + 1 + |d[1..]|] == d[1..];
      DigitRunOver(s, i + 1, d[1..]);
    }
  }

  /** Reading off the availability once the search result is known. */
  lemma AvailabilityOfFoundCount(t: string, i: nat)
    requires Strip(t) == t && Contains(t, InStockPhrase)
    requires i < |t| && SearchCount(t, 0) == Some(i)
    ensures CountMatchAt(t, i) && Availability(t) == CountAt(t, i)
  {
  }

  /** The text "In stock (<d> available)": already stripped, and the group matches at the parenthesis. */
  lemma CountedText(d: string, t: string)
    requires d != [] && AllDigits(d) && t == "In stock (" + d + " available)"
    ensures Strip(t) == t && Contains(t, InStockPhrase)
    ensures SearchCount(t, 0) == Some(9) && CountMatchAt(t, 9) && CountAt(t, 9) == d
  {
    assert Strip(t) == t by { StripUntrimmed(t); }
    assert Contains(t, InStockPhrase) by { assert t[0..8] == InStockPhrase; assert OccursAt(t, 0, InStockPhrase); }
    assert DigitRunEnd(t, 10) == 10 + |d| by {
      assert t[10..10 + |d|] == d;
      assert t[10 + |d|] == ' ';
      DigitRunOver(t, 10, d);
    }
    assert CountMatchAt(t, 9) && CountAt(t, 9) == d by {
      assert t[10 + |d|..10 + |d| + |AvailableSuffix|] == AvailableSuffix;
    }
    assert SearchCount(t, 0) == Some(9) by {
      assert forall i :: 0 <= i < 9 ==> t[i] != '(';
    }
  }

  /** "In stock (<d> available)" yields the digits d, e.g. "22" for "In stock (22 available)". */
  lemma InStockWithCount(d: string)
    requires d != [] && AllDigits(d)
    ensures Availability("In stock (" + d + " available)") == d
  {
    var t := "In stock (" + d + " available)";
    CountedText(d, t);
    AvailabilityOfFoundCount(t, 9);
  }
  /** "In stock" without a count gives "Yes". */
  lemma InStockWithoutCount()
    ensures Availability("In stock") == "Yes"
  {
    var t := "In stock";
    StripUntrimmed(t);
    assert OccursAt(t, 0, InStockPhrase);
    assert forall i :: 0 <= i < |t| ==> !CountMatchAt(t, i);
  }

  /** "Out of stock" gives "0". */
  lemma OutOfStock()
    ensures Availability("Out of stock") == "0"
  {
    var t := "Out of stock";
    StripUntrimmed(t);
    assert OccursAt(t, 0, OutOfStockPhrase);
    assert !Contains(t, InStockPhrase) by {
      forall i: nat | i <= |t| ensures !OccursAt(t, i, InStockPhrase) {
        if i + 8 <= |t| { assert t[i..i + 8][0] != 'I'; }
      }
    }
  }

  /** A text with neither phrase, such as "Pre-order", passes through. */
  lemma UnrecognisedPassesThrough()
    ensures Availability("Pre-order") == "Pre-order"
  {
    var t := "Pre-order";
    StripUntrimmed(t);
    assert !Contains(t, InStockPhrase) by {
      forall i: nat | i <= |t| ensures !OccursAt(t, i, InStockPhrase) {
      }
    }
    assert !Contains(t, OutOfStockPhrase) by {
      forall i: nat | i <= |t| ensures !OccursAt(t, i, OutOfStockPhrase) {
      }
    }
  }

  // ----- one record -----

  /** How many of title, price, rating and availability the script fills, in that order, before it stops. */
  function FilledFields(item: ItemInput): (n: nat)
    ensures n <= 4
    ensures n == 0 <==> item.titleAttr.None?
    ensures n >= 2 <==> item.titleAttr.Some? && item.price.Some? && item.price.value.Parsed?
    ensures n >= 3 <==> item.titleAttr.Some? && item.price.Some? && item.price.value.Parsed? && item.ratingClass.Some?
    ensures n == 4 <==> item.titleAttr.Some? && item.price.Some? && item.price.value.Parsed?
                        && item.ratingClass.Some? && item.stockText.Some?
  {
    if item.titleAttr.None? then 0
    else if item.price.None? || item.price.value.Unparsable? then 1
    else if item.ratingClass.None? then 2
    else if item.stockText.None? then 3
    else 4
  }

  /** Which handler the item ends in: none, "no such element", or the price's `ValueError`. */
  function ItemOutcome(item: ItemInput): (o: Outcome)
    ensures o == Complete <==> FilledFields(item) == 4
    ensures o == BadPrice ==> FilledFields(item) == 1
    ensures o == BadPrice <==> item.titleAttr.Some? && item.price == Some(Unparsable)
  {
    if item.titleAttr.Some? && item.price == Some(Unparsable) then BadPrice
    else if FilledFields(item) == 4 then Complete
    else MissingElement
  }

  /**
   * The record appended for one container: the `try` block's lookups in
   * order, each branch a way out of it. The record is appended on every path.
   */
  function BuildRecord(item: ItemInput, category: string): Record
  {
    match item.titleAttr
    case None => Record(NA, 0.0, NA, NA, category)
    case Some(attr) =>
      var title := Strip(attr);
      match item.price
      case None => Record(title, 0.0, NA, NA, category)
      case Some(Unparsable) => Record(title, 0.0, NA, NA, category)
      case Some(Parsed(p)) =>
        match item.ratingClass
        case None => Record(title, p, NA, NA, category)
        case Some(cls) =>
          var rating := StarRating(cls);
          match item.stockText
          case None => Record(title, p, rating, NA, category)
          case Some(txt) => Record(title, p, rating, Availability(txt), category)
  }

  /**
   * Fields fill in order: title, price, rating, availability. The first
   * missing element or a bad price stops the filling; the fields it reached
   * hold what was read, every later one keeps its default.
   */
  lemma BuildRecordFields(item: ItemInput, category: string)
    ensures var r := BuildRecord(item, category);
      && r.category == category
      && (FilledFields(item) >= 1 ==> r.title == Strip(item.titleAttr.value))
      && (FilledFields(item) < 1 ==> r.title == NA)
      && (FilledFields(item) >= 2 ==> r.price == item.price.value.amount)
      && (FilledFields(item) < 2 ==> r.price == 0.0)
      && (FilledFields(item) >= 3 ==> r.starRating == StarRating(item.ratingClass.value))
      && (FilledFields(item) < 3 ==> r.starRating == NA)
      && (FilledFields(item) >= 4 ==> r.availability == Availability(item.stockText.value))
      && (FilledFields(item) < 4 ==> r.availability == NA)
  {
  }

  /** A price that fails to convert: price 0.0, rating and availability unknown, the title kept. */
  lemma BadPriceRecord(item: ItemInput, category: string)
    requires ItemOutcome(item) == BadPrice
    ensures var r := BuildRecord(item, category);
      r.title == Strip(item.titleAttr.value) && r.price == 0.0 && r.starRating == NA && r.availability == NA
  {
    BuildRecordFields(item, category);
  }

  /** The rating selector on a class list "star-rating W": the rating word W. */
  lemma StarRatingOfClassList(w: string)
    requires w in RatingWords
    ensures StarRating("star-rating " + w) == w
  {
    var pre := "star-rating";
    assert forall i :: 0 <= i < |pre| ==> !IsSpace(pre[i]);
    SplitWord(pre);
    assert forall i :: 0 <= i < |w| ==> !IsSpace(w[i]);
    SplitWord(w);
    assert "star-rating " + w == pre + [' '] + w;
    SplitAtSpace(pre, ' ', w);
    assert pre !in RatingWords;
    assert Split("star-rating " + w) == [pre, w];
    assert FirstRating([pre, w]) == FirstRating([w]);
  }
}
