/**
 * The pagination controller and the category resolver. The browser is a
 * sequence of page snapshots: page number `n` of the run is `pages[n - 1]`,
 * the page shown after `n - 1` successful clicks on "next".
 */
module Pagination {
  import opened Wrappers
  import opened Text
  import opened Extraction

  /** The address the run starts from; the category fallback compares against it. */
  const StartUrl: string := "http://books.toscrape.com/"
  const HomeCategory: string := "Books/General"
  const MaxPages: nat := 5

  /** What the script can observe of one catalog page. */
  datatype Page = Page(
    hasProducts: bool,               // a `product_pod` appears within the wait
    items: seq<ItemInput>,           // the `product_pod` containers, in document order
    breadcrumb: Option<string>,      // text of the breadcrumb's next-to-last link, if found
    url: string,                     // the browser's current URL
    nextClickable: bool)             // the "next" link becomes clickable within the wait

  /**
   * The category label of a page: the trimmed breadcrumb text when there is
   * one, otherwise "Books/General" on the start URL and "N/A" anywhere else.
   */
  function ResolveCategory(breadcrumb: Option<string>, url: string): (c: string)
    ensures breadcrumb.Some? ==> c == Strip(breadcrumb.value)
    ensures breadcrumb.None? ==> (c == HomeCategory <==> url == StartUrl)
    ensures breadcrumb.None? ==> (c == NA <==> url != StartUrl)
  {
    match breadcrumb
    case Some(text) => Strip(text)
    case None => if url == StartUrl then HomeCategory else NA
  }

  function PageCategory(p: Page): string {
    ResolveCategory(p.breadcrumb, p.url)
  }

  /** The records the per-item loop appends for `items`, one per container, in container order. */
  function ItemRecords(items: seq<ItemInput>, category: string): (rs: seq<Record>)
    ensures |rs| == |items|
    ensures forall i :: 0 <= i < |items| ==> rs[i] == BuildRecord(items[i], category)
  {
    if items == [] then []
    else
      var n := |items| - 1;
      assert forall i :: 0 <= i < n ==> items[..n][i] == items[i];
      ItemRecords(items[..n], category) + [BuildRecord(items[n], category)]
  }

  /** What one page adds to the record list: nothing when no product shows up. */
  function PageOutput(p: Page): (rs: seq<Record>)
    ensures !p.hasProducts ==> rs == []
    ensures p.hasProducts ==> |rs| == |p.items|
    ensures forall i :: 0 <= i < |rs| ==> rs[i] == BuildRecord(p.items[i], PageCategory(p))
    ensures forall i :: 0 <= i < |rs| ==> rs[i].category == PageCategory(p)
  {
    if p.hasProducts then ItemRecords(p.items, PageCategory(p)) else []
  }

  /** The loop leaves page `n` for page `n + 1`: products were found, the limit is not reached and "next" was clicked. */
  predicate Advances(p: Page, n: nat) {
    p.hasProducts && n < MaxPages && p.nextClickable
  }

  /** After every successful click the browser has a page to show. */
  predicate BrowserSupplies(pages: seq<Page>) {
    |pages| > 0 && forall k :: 0 <= k < |pages| && Advances(pages[k], k + 1) ==> k + 1 < |pages|
  }

  /** The page number at which the loop stops, starting from page `n`. */
  function FinalPage(pages: seq<Page>, n: nat): (m: nat)
    requires BrowserSupplies(pages) && 1 <= n <= |pages|
    ensures n <= m <= |pages|
    ensures n <= MaxPages ==> m <= MaxPages
    ensures forall k :: n - 1 <= k < m - 1 ==> Advances(pages[k], k + 1)
    ensures !Advances(pages[m - 1], m)
    decreases MaxPages - n
  {
    if Advances(pages[n - 1], n) then FinalPage(pages, n + 1) else n
  }

  /**
   * The records appended from page `n` on: this page's records, then those
   * of the pages after it, as long as the loop advances.
   */
  function ScrapeFrom(pages: seq<Page>, n: nat): (rs: seq<Record>)
    requires BrowserSupplies(pages) && 1 <= n <= |pages|
    decreases MaxPages - n
  {
    var p := pages[n - 1];
    PageOutput(p) + if Advances(p, n) then ScrapeFrom(pages, n + 1) else []
  }

  /** The per-item loop: one record appended per container, in container order, none changed. */
  method AppendItems(records: seq<Record>, items: seq<ItemInput>, category: string) returns (out: seq<Record>)
    ensures out == records + ItemRecords(items, category)
    ensures out[..|records|] == records
    ensures |out| == |records| + |items|
  {
    out := records;
    for i := 0 to |items|
      invariant out == records + ItemRecords(items[..i], category)
    {
      assert items[..i + 1][..i] == items[..i];
      out := out + [BuildRecord(items[i], category)];
    }
    assert items[..|items|] == items;
  }

  /** When the loop stops at page `n`, what was collected before it plus this page's records is everything. */
  lemma LastPage(pages: seq<Page>, n: nat, before: seq<Record>)
    requires BrowserSupplies(pages) && 1 <= n <= |pages|
    requires !Advances(pages[n - 1], n)
    ensures before + ScrapeFrom(pages, n) == before + PageOutput(pages[n - 1])
  {
    assert ScrapeFrom(pages, n) == PageOutput(pages[n - 1]) + [];
    assert PageOutput(pages[n - 1]) + [] == PageOutput(pages[n - 1]);
  }

  lemma AppendAssoc<T>(a: seq<T>, b: seq<T>, c: seq<T>)
    ensures (a + b) + c == a + (b + c)
  {
  }

  /**
   * The scraping loop. The counter starts at 1 and grows by one only after
   * "next" was clicked; records are only ever appended.
   */
  method Scrape(pages: seq<Page>) returns (records: seq<Record>, pageNum: nat)
    requires BrowserSupplies(pages)
    ensures records == ScrapeFrom(pages, 1)
    ensures pageNum == FinalPage(pages, 1)
    ensures 1 <= pageNum <= MaxPages
  {
    pageNum := 1;
    records := [];
    while true
      invariant 1 <= pageNum <= |pages| && pageNum <= MaxPages
      invariant records + ScrapeFrom(pages, pageNum) == ScrapeFrom(pages, 1)
      invariant FinalPage(pages, pageNum) == FinalPage(pages, 1)
      decreases MaxPages - pageNum
    {
      var page := pages[pageNum - 1];
      var category := ResolveCategory(page.breadcrumb, page.url);
      if !page.hasProducts {
        LastPage(pages, pageNum, records);
        break;
      }
      ghost var before := records;
      records := AppendItems(records, page.items, category);
      AppendAssoc(before, PageOutput(page), if Advances(page, pageNum) then ScrapeFrom(pages, pageNum + 1) else []);
      if pageNum >= MaxPages {
        LastPage(pages, pageNum, before);
        break;
      }
      if !page.nextClickable {
        LastPage(pages, pageNum, before);
        break;
      }
      pageNum := pageNum + 1;
    }
  }

  // ----- properties of a run -----

  /**
   * Pages that all show products and all offer "next" carry the loop from
   * page `n` to the page limit, where it stops whatever that page offers.
   */
  lemma {:induction false} RunsToLimit(pages: seq<Page>, n: nat)
    requires BrowserSupplies(pages) && 1 <= n <= MaxPages <= |pages|
    requires forall k :: n - 1 <= k < MaxPages - 1 ==> pages[k].hasProducts && pages[k].nextClickable
    ensures FinalPage(pages, n) == MaxPages
    decreases MaxPages - n
  {
    if n < MaxPages {
      assert Advances(pages[n - 1], n);
      RunsToLimit(pages, n + 1);
    }
  }

  /** A run that shows products on five pages stops after page 5 exactly, with or without a sixth "next". */
  lemma FivePageRun(pages: seq<Page>)
    requires BrowserSupplies(pages) && |pages| >= MaxPages
    requires forall k :: 0 <= k < MaxPages ==> pages[k].hasProducts
    requires forall k :: 0 <= k < MaxPages - 1 ==> pages[k].nextClickable
    ensures FinalPage(pages, 1) == MaxPages
  {
    RunsToLimit(pages, 1);
  }

  /** A first page without products ends the run on page 1 with no record at all. */
  lemma EmptyFirstPage(pages: seq<Page>)
    requires BrowserSupplies(pages) && !pages[0].hasProducts
    ensures ScrapeFrom(pages, 1) == [] && FinalPage(pages, 1) == 1
  {
  }

  /**
   * The run is the pages' outputs laid end to end: the first |PageOutput|
   * records come from page `n`, the rest from the pages after it.
   */
  lemma {:induction false} RecordInPageOutput(pages: seq<Page>, n: nat, j: nat)
    returns (k: nat, i: nat)
    requires BrowserSupplies(pages) && 1 <= n <= |pages|
    requires j < |ScrapeFrom(pages, n)|
    ensures n - 1 <= k < FinalPage(pages, n) && i < |PageOutput(pages[k])|
    ensures ScrapeFrom(pages, n)[j] == PageOutput(pages[k])[i]
    decreases MaxPages - n
  {
    var here := PageOutput(pages[n - 1]);
    if j < |here| {
      assert ScrapeFrom(pages, n)[j] == here[j];
      k, i := n - 1, j;
    } else {
      assert Advances(pages[n - 1], n);
      assert ScrapeFrom(pages, n) == here + ScrapeFrom(pages, n + 1);
      assert FinalPage(pages, n) == FinalPage(pages, n + 1);
      k, i := RecordInPageOutput(pages, n + 1, j - |here|);
    }
  }

  /**
   * Every record of the run is built from a container of a visited page that
   * showed products, with that page's category.
   */
  lemma RecordFromVisitedPage(pages: seq<Page>, n: nat, j: nat)
    requires BrowserSupplies(pages) && 1 <= n <= |pages|
    requires j < |ScrapeFrom(pages, n)|
    ensures exists k, i :: n - 1 <= k < FinalPage(pages, n) && pages[k].hasProducts && 0 <= i < |pages[k].items|
                           && ScrapeFrom(pages, n)[j] == BuildRecord(pages[k].items[i], PageCategory(pages[k]))
  {
    var k, i := RecordInPageOutput(pages, n, j);
    assert pages[k].hasProducts && i < |pages[k].items|;
    assert ScrapeFrom(pages, n)[j] == BuildRecord(pages[k].items[i], PageCategory(pages[k]));
  }
}
