# Books to Scrape: extraction and validation pipeline in Dafny

This project models the data path of `scrape_and_validate.py`, a Selenium script
that pages through the Books to Scrape catalogue. On each page it resolves a
category label from the breadcrumb. It turns every `product_pod` container into a
record with five keys: title, price, star rating, availability and category. At the
end it runs five validation scans over the record list.

The browser is replaced by data:

- A page is a snapshot (`Pagination.Page`). It holds: whether a product showed up
  within the wait, the containers in document order, the breadcrumb text if it was
  found, the current URL, and whether "next" became clickable.
- The run reads page `n` from `pages[n - 1]`.
- In a container (`Extraction.ItemInput`), each element lookup is either present,
  with the text or attribute it would read, or `None` for "no such element".
- The price conversion is given by its outcome: `Parsed(amount)` or `Unparsable`.

Modules, one file each:

- `Text` (`text.dfy`): Python's `str.strip()`, `str.split()`, the substring test
  and the strings `int()` accepts.
- `Extraction` (`extraction.dfy`): the star-rating selector, the availability rule
  and the per-item record builder, with its defaults and its fill order.
- `Pagination` (`pagination.dfy`): the category resolver, the per-item loop, and
  the `while True` loop with its three exits.
- `Validation` (`validation.dfy`): the five scans, the error list and the verdict.
- `Pipeline` (`pipeline.dfy`): how the extractor's output meets the validator's
  rules.
- `Wrappers` (`wrappers.dfy`): `Option`.

The loops that change state in the script are methods here:

- `Pagination.Scrape`: the page loop. It appends to a record list and updates the
  page counter.
- `Pagination.AppendItems`: the per-item loop.
- `Validation.ScanRule` and `Validation.Validate`: the validation loops.

Each method is proved equal to a specification function: `ScrapeFrom` and
`FinalPage` for the run, `ItemRecords` for one page, and `RuleErrors` and
`AllErrors` for the validator. The lemmas are stated about those functions.

Three behaviours of the script that are easy to miss:

- A title whose link is missing keeps the default `"N/A"` set at line 91.
- A page's category is resolved (lines 51-68) before the wait for products
  (lines 72-82). A page without products therefore still resolves one, and then
  contributes nothing.
- A successfully parsed price is not guaranteed to be non-negative. `float()` at
  line 108 accepts negative numbers, and the price check at line 225 exists to
  catch them (`Pipeline.ExtractedPriceFlagged`).

## Model

| member | source | states |
|---|---|---|
| `Text.Strip` | scrape_and_validate.py:121 | `.strip()` leaves no whitespace at either end, and its result is empty exactly when the input is blank |
| `Text.StripIsSlice` | scrape_and_validate.py:100 | the stripped text is a contiguous slice of the input, and only whitespace lies before and after it |
| `Text.StripIdempotent` | scrape_and_validate.py:121 | stripping an already stripped text changes nothing; `BreadcrumbCategoryAccepted` uses it for the category check's own `.strip()` (line 272) on a resolved breadcrumb |
| `Text.Split` | scrape_and_validate.py:113 | `.split()` yields only non-empty tokens, no token contains whitespace, and the empty string has no tokens |
| `Text.SplitAtSpace` | scrape_and_validate.py:113 | a whitespace character separates tokens: the tokens of `a + " " + b` are the tokens of `a` followed by those of `b` |
| `Text.Contains` | scrape_and_validate.py:122-134 | Python's `in` on strings (lines 122 and 134): the pattern occurs as a contiguous slice at some position |
| `Text.IntParses` | scrape_and_validate.py:261 | the strings the modelled `int()` converts: after stripping, an optional `+` or `-` and one or more ASCII digits |
| `Text.DigitsParse` | scrape_and_validate.py:261 | the modelled `int()` accepts every non-empty ASCII digit string (the 4300-digit limit of current Python is not modelled) |
| `Extraction.FirstRating` | scrape_and_validate.py:115-116 | the result is the first token, in class-list order, that is One/Two/Three/Four/Five, and it is "N/A" exactly when no token is; the result is always one of the six valid ratings |
| `Extraction.StarRating` | scrape_and_validate.py:113-116 | the rating read from a class attribute is always in `valid_ratings` |
| `Extraction.StarRatingOfClassList` | scrape_and_validate.py:111-116 | the class list "star-rating W" yields W for each rating word W |
| `Extraction.DigitRunEnd` | scrape_and_validate.py:127 | the greedy `\d+` stops exactly at the first non-digit |
| `Extraction.CountMatchAt` | scrape_and_validate.py:127 | the pattern `\((\d+) available\)` matches at i: "(", a maximal non-empty run of ASCII digits (the greedy `\d+`), then " available)" |
| `Extraction.CountAt` | scrape_and_validate.py:127-129 | the captured group is a non-empty ASCII digit string |
| `Extraction.SearchCount` | scrape_and_validate.py:127-128 | `re.search` finds the leftmost position where `(<digits> available)` matches, and finds nothing exactly when it matches nowhere |
| `Extraction.Availability` | scrape_and_validate.py:121-137 | the availability value of a stock text: strip, then the "In stock" branch (count group or "Yes"), the "Out of stock" branch ("0"), or the stripped text; its contract is `AvailabilityRule` |
| `Extraction.AvailabilityRule` | scrape_and_validate.py:121-137 | after stripping: with "In stock", the digits of the leftmost count group, or "Yes" exactly when there is none; otherwise "0" with "Out of stock"; otherwise the stripped text unchanged; "In stock" is tested first |
| `Extraction.InStockWithCount` | scrape_and_validate.py:127-129 | "In stock (d available)" yields d for any digit string d, e.g. "22" |
| `Extraction.InStockWithoutCount` | scrape_and_validate.py:130-131 | "In stock" without a count yields "Yes" |
| `Extraction.OutOfStock` | scrape_and_validate.py:134-135 | "Out of stock" yields "0" |
| `Extraction.UnrecognisedPassesThrough` | scrape_and_validate.py:136-137 | an unrecognised text such as "Pre-order" passes through unchanged |
| `Extraction.FilledFields` | scrape_and_validate.py:96-137 | the try block fills at most the four item fields; it fills none exactly when the title link is missing, at least the price exactly when the title link is found and the price converts, at least the rating exactly when the rating element is found as well, and all four exactly when every lookup succeeds and the price converts |
| `Extraction.ItemOutcome` | scrape_and_validate.py:150-168 | an item ends in the plain path exactly when all four fields were filled; it ends in the `ValueError` handler exactly when the title link was found and the price does not convert, which is after the title only |
| `Extraction.BuildRecord` | scrape_and_validate.py:90-168 | the record appended for one container on the plain path and on both handlers (missing element, bad price); its contract is `BuildRecordFields` |
| `Extraction.BuildRecordFields` | scrape_and_validate.py:90-168 | fields fill in order (title, price, rating, availability); every field reached holds what was read; every field after the first missing element or a bad price keeps its default from lines 91-94; the record carries the page's category |
| `Extraction.BadPriceRecord` | scrape_and_validate.py:160-168 | on a price conversion error the record has price 0.0, rating and availability "N/A", and keeps the parsed title |
| `Pagination.ResolveCategory` | scrape_and_validate.py:51-68 | the breadcrumb's stripped text when it is found; otherwise "Books/General" exactly on the start URL and "N/A" exactly elsewhere |
| `Pagination.ItemRecords` | scrape_and_validate.py:90-168 | one record per container, in container order, each built from its own container and the page's category |
| `Pagination.PageOutput` | scrape_and_validate.py:72-168 | a page without products adds nothing; otherwise it adds one record per container, and every record carries the page's category (lines 146, 158, 167) |
| `Pagination.Advances` | scrape_and_validate.py:72-192 | the loop goes on from page n exactly when products showed up, the counter is below `max_pages_to_scrape` (5) and "next" was clickable |
| `Pagination.ScrapeFrom` | scrape_and_validate.py:44-192 | the records appended from page n on: this page's output, then those of the following pages while the loop advances; `Scrape` is proved equal to it |
| `Pagination.FinalPage` | scrape_and_validate.py:44-192 | the loop stops on a page it cannot advance from (no products, counter at `max_pages_to_scrape`, or no clickable "next"). Every earlier page was advanced from, and the last page number is at most 5 |
| `Pagination.AppendItems` | scrape_and_validate.py:90-168 | the per-item loop appends exactly `ItemRecords` and leaves the earlier records untouched |
| `Pagination.Scrape` | scrape_and_validate.py:44-192 | the loop's record list is `ScrapeFrom(pages, 1)`: page order, then container order, append-only. Its final counter is `FinalPage(pages, 1)`, between 1 and 5 |
| `Pagination.RunsToLimit` | scrape_and_validate.py:172-174 | pages that all show products and offer "next" carry the loop to the page limit |
| `Pagination.FivePageRun` | scrape_and_validate.py:170-192 | five pages with products stop the run after page 5 exactly. The limit decides, not a missing sixth "next" |
| `Pagination.EmptyFirstPage` | scrape_and_validate.py:72-82 | a first page without products ends the run on page 1 with no record |
| `Pagination.RecordFromVisitedPage` | scrape_and_validate.py:51-168 | every record of a run is the record built from one container of a visited page that showed products, with that page's category |
| `Validation.Violates` | scrape_and_validate.py:225-272 | the five conditions: price < 0 (225); title blank after strip (237); rating not in `valid_ratings` (249); availability not "N/A", "Yes" or "0" and not accepted by the modelled `int()` (259-261); category blank after strip or exactly "N/A" (272) |
| `Validation.RuleErrors` | scrape_and_validate.py:221-277 | a scan reports at most as many errors as there are records (one per record: `RuleErrorsOrdered`, `RuleErrorsSound`) |
| `Validation.RuleErrorsSound` | scrape_and_validate.py:221-277 | every reported error names a record that violates the rule, at that record's index |
| `Validation.RuleErrorsComplete` | scrape_and_validate.py:221-277 | every violating record is reported |
| `Validation.RuleErrorsOrdered` | scrape_and_validate.py:221-277 | a scan reports in strictly increasing index order |
| `Validation.RuleErrorsEmpty` | scrape_and_validate.py:221-277 | a scan reports nothing exactly when no record violates its rule |
| `Validation.AllViolatingAllReported` | scrape_and_validate.py:221-277 | when every record violates a rule, the scan reports as many errors as there are records |
| `Validation.AllErrors` | scrape_and_validate.py:219-277 | the error list: the five scans' errors concatenated in source order, at most five per record |
| `Validation.PassedIffNoErrors` | scrape_and_validate.py:280-286 | the error list is empty exactly when every record passes all five checks |
| `Validation.ScanRule` | scrape_and_validate.py:221-277 | one validation loop appends exactly the scan's errors after the existing ones. It reads the record list and does not change it |
| `Validation.Validate` | scrape_and_validate.py:219-286 | the error list is the five scans in source order, and "all passed" holds exactly when no record violates any check |
| `Pipeline.ExtractedRatingAccepted` | scrape_and_validate.py:245-254 | a scraped record never fails the star-rating check |
| `Pipeline.PageRatingsAccepted` | scrape_and_validate.py:248-252 | no record of one page fails the star-rating check |
| `Pipeline.RunRatingsAccepted` | scrape_and_validate.py:248-252 | no record of a whole run fails the star-rating check |
| `Pipeline.RunHasNoRatingErrors` | scrape_and_validate.py:245-254 | validating a whole run never reports an invalid star rating |
| `Pipeline.AvailabilityBranchesAccepted` | scrape_and_validate.py:258-265 | the values of the "In stock" and "Out of stock" branches are "Yes", "0" or a digit string, all accepted by the availability check under the modelled `int()` (no 4300-digit limit) |
| `Pipeline.ExtractedAvailabilityFlagged` | scrape_and_validate.py:136-137 | a scraped record fails the availability check only through the pass-through branch. All elements were found, and the stripped text holds neither phrase |
| `Pipeline.ExtractedPriceFlagged` | scrape_and_validate.py:224-228 | a scraped record fails the price check exactly when a price was converted and is negative |
| `Pipeline.ExtractedTitleFlagged` | scrape_and_validate.py:236-240 | a scraped record fails the title check exactly when the link was found and its title is blank; the "N/A" default passes |
| `Pipeline.FallbackPageCategoryErrors` | scrape_and_validate.py:271-275 | a page with products, no breadcrumb and a URL other than the start URL yields one category error per record |
| `Pipeline.StartPageCategoryAccepted` | scrape_and_validate.py:65-66 | the "Books/General" fallback of the start page passes the category check |
| `Pipeline.BreadcrumbCategoryAccepted` | scrape_and_validate.py:58 | a breadcrumb that strips to something non-blank other than "N/A" passes the category check |

## Left out

- Selenium itself is not modelled: driver setup, GeckoDriverManager, window sizing,
  `WebDriverWait` timeouts, `time.sleep`, clicks and element lookup. Each wait's
  outcome and each lookup's result is an input field of a page snapshot.
- The browser model requires that a successful click on "next" leads to another
  snapshot (`Pagination.BrowserSupplies`). The real browser always shows some page
  after a click.
- Price parsing is not modelled: `float(price_str.replace('£', '').strip())` is
  floating point. Its outcome is an input, either a real amount or a conversion
  error. NaN and infinities are not represented; a NaN price would pass the price
  check in the script.
- The CSV export (lines 196-215) is file I/O. It writes a file only when records
  were scraped. It is not modelled.
- Console output is not modelled. This includes the "PASSED" re-checks, where the
  availability re-check uses `isdigit` while the check itself uses `int()`, so the
  two can disagree on a value such as "-3". Those lines are messages only.
- Error messages are not formatted strings here. Each entry is
  `ValidationError(rule, index, record)`, which holds everything the script's
  message is formatted from.
- `int()` is modelled as: surrounding whitespace, an optional sign, and one or more
  ASCII digits. Underscores between digits and non-ASCII digits are not accepted
  here. The limit on the number of digits in current Python
  (`sys.int_info.default_max_str_digits`, 4300) is not modelled: Python rejects a
  longer digit string, and the model accepts it.
- Text.DigitsParse: accepts digit strings of any length, because the model of
  `int()` has no digit-count limit. Python rejects more than 4300 digits.
- Pipeline.AvailabilityBranchesAccepted: says an "In stock (N available)" count
  always passes the availability check. In Python, a count of more than 4300 digits
  would be flagged at line 263.
- The regex `\((\d+) available\)` is a string predicate over ASCII digits
  (`Extraction.CountMatchAt`), not a regex engine.
- Whitespace for `strip()` and `split()` is the Latin-1 part of `str.isspace()`;
  other Unicode spaces are treated as ordinary characters.
- Top-level exception handling is not modelled: the catch-all `except Exception`,
  `finally: driver.quit()`, and an uncaught `StaleElementReferenceException`.
- A link or rating element whose attribute is absent is not modelled.
  `get_attribute` would return `None`, and `.strip()` or `.split()` would raise an
  error that ends the whole run. The model assumes the attribute exists whenever
  the element does.
- The `except Exception` around the regex (lines 132-133) is not modelled; nothing
  in the modelled search can raise.
- The `'key' in item` tests of the validator always hold, because every record has
  all five keys, so they are not modelled.
