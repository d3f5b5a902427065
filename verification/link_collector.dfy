/** Link collection (`search_and_scrape`): the search query is normalised,
    result pages 1 to 6 are requested in turn until one fails or holds no
    record link, and the record links found are returned in order, made
    absolute with the site origin. The HTTP layer is a parameter: for each
    result-page request, `server` says what the GET of its URL (`PageUrl`)
    gives back. */
module LinkCollector {
  import opened Optional
  import opened Text
  import opened Patterns
  import opened Sequences

  const Origin: string := "https://medu4.com"
  const ResultEndpoint: string := Origin + "/quizzes/result"

  /** The loop runs while `page_num <= 6`. */
  const MaxPages: nat := 6

  /** What one GET of a result page gives back: its status code and the `href`
      of every anchor that has one, in document order; or a transport error,
      which the source does not catch and which therefore ends the run. */
  datatype Reply = Reply(status: int, hrefs: seq<string>) | TransportError

  /** A GET of one result page: which query, which page number. Its URL is
      `PageUrl(request)`. */
  datatype PageRequest = PageRequest(query: string, page: nat)

  /** What a collection run did: the result pages it requested, in order,
      and, unless a transport error aborted it, the links it returns. */
  datatype Collection =
    | Collected(requested: seq<PageRequest>, links: seq<string>)
    | Aborted(requested: seq<PageRequest>)

  // ---------------------------------------------------------------------
  // Query normalisation: search_query.strip().replace(' ', '%20')

  function NormalizeQuery(query: string): (r: string)
    ensures ' ' !in r
    ensures Trimmed(r)
  {
    var stripped := Strip(query);
    StripShape(query);
    NormalizedShape(stripped);
    Replace(stripped, " ", "%20")
  }

  lemma NormalizedShape(stripped: string)
    requires Trimmed(stripped)
    ensures ' ' !in Replace(stripped, " ", "%20")
    ensures Trimmed(Replace(stripped, " ", "%20"))
  {
    ReplaceRemovesChar(stripped, ' ', "%20");
    if |stripped| > 0 {
      ReplaceKeepsFirst(stripped, ' ', "%20");
      ReplaceKeepsLast(stripped, ' ', "%20");
    }
  }

  /** Normalising an already normalised query changes nothing. */
  lemma NormalizeIdempotent(query: string)
    ensures NormalizeQuery(NormalizeQuery(query)) == NormalizeQuery(query)
  {
    NormalizedIsFixed(NormalizeQuery(query));
  }

  lemma NormalizedIsFixed(r: string)
    requires ' ' !in r && Trimmed(r)
    ensures NormalizeQuery(r) == r
  {
    StripTrimmed(r);
    ReplaceCharAbsent(r, ' ', "%20");
  }

  /** Each space of the stripped query became `%20` (percent-encoding of a
      space, section 2.1 of RFC 3986) and nothing else changed: decoding
      `%20` gives the stripped query back whenever it held no `%` of its own. */
  lemma NormalizeDecodes(query: string)
    requires '%' !in query
    ensures Replace(NormalizeQuery(query), "%20", " ") == Strip(query)
  {
    var stripped := Strip(query);
    assert '%' !in stripped by {
      StripKeepsAbsent(query, '%');
    }
    assert NormalizeQuery(query) == Replace(stripped, [' '], "%20");
    ReplaceRoundTrip(stripped, ' ', "%20");
  }

  // ---------------------------------------------------------------------
  // Result-page URLs

  /** The URL of result page `page`: page 1 carries no page parameter, later
      pages carry `page=<n>` as the first query parameter. */
  function PageUrl(request: PageRequest): string
    requires request.page >= 1
  {
    var q := request.query;
    if request.page == 1 then ResultEndpoint + "?q=" + q + "&st=all"
    else ResultEndpoint + "?page=" + NatToString(request.page) + "&q=" + q + "&st=all"
  }

  const PagePrefix: string := ResultEndpoint + "?page="

  /** Reads the page parameter back out of a result-page URL: the digits that
      follow `?page=`, or None when the URL has no page parameter. */
  function PageParameter(url: string): Option<nat> {
    if PagePrefix <= url then
      var e := DigitRunEnd(url, |PagePrefix|);
      var digits := url[|PagePrefix|..e];
      DigitRunEndShape(url, |PagePrefix|);
      assert forall k :: 0 <= k < |digits| ==> digits[k] == url[|PagePrefix| + k];
      Some(ParseNat(digits))
    else None
  }

  /** Page 1's URL has no page parameter; every later page's URL carries its
      own number. */
  lemma PageUrlCarriesPage(q: string, page: nat)
    requires page >= 1
    ensures PageParameter(PageUrl(PageRequest(q, page))) == if page == 1 then None else Some(page)
  {
    var url := PageUrl(PageRequest(q, page));
    var n := |ResultEndpoint|;
    if page == 1 {
      assert url[n + 1] == 'q';
      assert PagePrefix[n + 1] == 'p';
    } else {
      var digits := NatToString(page);
      var rest := "&q=" + q + "&st=all";
      assert url == PagePrefix + digits + rest;
      var p := |PagePrefix|;
      assert url[p + |digits|] == '&';
      assert url[p..p + |digits|] == digits;
      RunEndUnique(url, p, p + |digits|);
      NatToStringRoundTrip(page);
    }
  }

  // ---------------------------------------------------------------------
  // The link filter

  /** The record links among a page's hrefs: `[link for link in all_links
      if pattern.search(link)]`. */
  function RecordLinks(hrefs: seq<string>): seq<string> {
    Filter(hrefs, IsRecordLink)
  }

  /** The filter keeps exactly the hrefs that contain a record path, each as
      often as it occurs: duplicates are not removed. */
  lemma RecordLinksKeep(hrefs: seq<string>)
    ensures forall k :: 0 <= k < |RecordLinks(hrefs)| ==> IsRecordLink(RecordLinks(hrefs)[k])
    ensures forall x :: multiset(RecordLinks(hrefs))[x] == if IsRecordLink(x) then multiset(hrefs)[x] else 0
  {
    FilterKeep(hrefs, IsRecordLink);
  }

  /** The filter keeps document order: filtering a concatenation is
      concatenating the filtered parts. */
  lemma RecordLinksAppend(a: seq<string>, b: seq<string>)
    ensures RecordLinks(a + b) == RecordLinks(a) + RecordLinks(b)
  {
    FilterAppend(a, b, IsRecordLink);
  }

  /** `f"https://medu4.com{link}"` for every link. */
  function Absolute(links: seq<string>): (r: seq<string>)
    ensures |r| == |links|
  {
    seq(|links|, k requires 0 <= k < |links| => Origin + links[k])
  }

  // ---------------------------------------------------------------------
  // The pagination loop

  /** The loop of `search_and_scrape` from `page` on, having found `found`
      and requested `requested` so far. */
  function Paginate(q: string, server: PageRequest -> Reply, page: nat, found: seq<string>,
                    requested: seq<PageRequest>): Collection
    requires 1 <= page <= MaxPages + 1
    decreases MaxPages + 1 - page
  {
    if page > MaxPages then Collected(requested, found)
    else
      var request := PageRequest(q, page);
      match server(request)
      case TransportError => Aborted(requested + [request])
      case Reply(status, hrefs) =>
        if status != 200 then Collected(requested + [request], found)
        else
          var pageResults := RecordLinks(hrefs);
          if pageResults == [] then Collected(requested + [request], found)
          else Paginate(q, server, page + 1, found + pageResults, requested + [request])
  }

  /** `search_and_scrape(search_query)`. */
  function SearchAndScrape(query: string, server: PageRequest -> Reply): Collection {
    Collect(NormalizeQuery(query), server)
  }

  /** The run for the normalised query `q`: the loop from page 1, its links
      made absolute. */
  function Collect(q: string, server: PageRequest -> Reply): Collection {
    match Paginate(q, server, 1, [], [])
    case Aborted(requested) => Aborted(requested)
    case Collected(requested, links) => Collected(requested, Absolute(links))
  }

  // ---------------------------------------------------------------------
  // A reference description of the same run, page by page

  /** Page `n` answers 200 and holds at least one record link, so the loop
      goes on past it. */
  predicate Productive(q: string, server: PageRequest -> Reply, n: nat)
    requires n >= 1
  {
    var reply := server(PageRequest(q, n));
    reply.Reply? && reply.status == 200 && RecordLinks(reply.hrefs) != []
  }

  /** How many pages in a row, from page `from` up to page 6, are productive. */
  function ProductiveRun(q: string, server: PageRequest -> Reply, from: nat): nat
    requires 1 <= from <= MaxPages + 1
    decreases MaxPages + 1 - from
  {
    if from > MaxPages || !Productive(q, server, from) then 0
    else 1 + ProductiveRun(q, server, from + 1)
  }

  /** The run is the longest stretch of productive pages from `from` on,
      within the cap. */
  lemma {:induction false} ProductiveRunMeaning(q: string, server: PageRequest -> Reply, from: nat)
    requires 1 <= from <= MaxPages + 1
    ensures var n := ProductiveRun(q, server, from);
      && from + n <= MaxPages + 1
      && (forall p :: from <= p < from + n ==> Productive(q, server, p))
      && (from + n <= MaxPages ==> !Productive(q, server, from + n))
    decreases MaxPages + 1 - from
  {
    if from <= MaxPages && Productive(q, server, from) {
      ProductiveRunMeaning(q, server, from + 1);
    }
  }

  /** The record links that page `n` holds, if it answers 200. */
  function PageLinks(q: string, server: PageRequest -> Reply, n: nat): seq<string>
    requires n >= 1
  {
    var reply := server(PageRequest(q, n));
    if reply.Reply? && reply.status == 200 then RecordLinks(reply.hrefs) else []
  }

  /** The record links of pages 1 to `n`, in page order. */
  function LinksOfPages(q: string, server: PageRequest -> Reply, n: nat): seq<string> {
    if n == 0 then [] else LinksOfPages(q, server, n - 1) + PageLinks(q, server, n)
  }

  /** The requests for pages 1 to `n`, in order. */
  function PageRequests(q: string, n: nat): seq<PageRequest> {
    if n == 0 then [] else PageRequests(q, n - 1) + [PageRequest(q, n)]
  }

  /** The k-th request of the list is for page k + 1. */
  lemma {:induction false} PageRequestsInOrder(q: string, n: nat)
    ensures |PageRequests(q, n)| == n
    ensures forall k :: 0 <= k < n ==> PageRequests(q, n)[k] == PageRequest(q, k + 1)
  {
    if n > 0 {
      PageRequestsInOrder(q, n - 1);
    }
  }

  /** The number of pages a run requests: every productive page of the
      leading run plus the page that stopped it, six at most. */
  function PagesRequested(productive: nat): nat {
    if productive >= MaxPages then MaxPages else productive + 1
  }

  /** An unproductive page ends the loop: it is the last page requested. */
  lemma PaginateStops(q: string, server: PageRequest -> Reply, page: nat,
                      found: seq<string>, requested: seq<PageRequest>)
    requires 1 <= page <= MaxPages
    requires !Productive(q, server, page)
    ensures var request := PageRequest(q, page);
      Paginate(q, server, page, found, requested)
        == if server(request).TransportError? then Aborted(requested + [request])
           else Collected(requested + [request], found)
  {
  }

  /** A productive page below the cap hands on to the next page. */
  lemma PaginateContinues(q: string, server: PageRequest -> Reply, page: nat,
                          found: seq<string>, requested: seq<PageRequest>)
    requires 1 <= page <= MaxPages
    requires Productive(q, server, page)
    ensures Paginate(q, server, page, found, requested)
        == Paginate(q, server, page + 1, found + PageLinks(q, server, page), requested + [PageRequest(q, page)])
  {
  }

  /** What a run does whose first `n` pages were productive: it requests
      pages 1 to n + 1 (at most 6); it fails if the page that stopped it
      raised a transport error, and otherwise returns the record links of
      pages 1 to n. */
  function Expected(q: string, server: PageRequest -> Reply, n: nat): Collection {
    var requested := PageRequests(q, PagesRequested(n));
    if n < MaxPages && server(PageRequest(q, n + 1)).TransportError? then Aborted(requested)
    else Collected(requested, LinksOfPages(q, server, n))
  }

  /** The loop, entered at the page after `done` having requested and found
      everything of pages 1 to `done`, ends as the reference says. */
  lemma {:induction false} PaginateMeaning(q: string, server: PageRequest -> Reply, done: nat)
    requires done <= MaxPages
    ensures Paginate(q, server, done + 1, LinksOfPages(q, server, done), PageRequests(q, done))
         == Expected(q, server, done + ProductiveRun(q, server, done + 1))
    decreases MaxPages - done, 1
  {
    if done < MaxPages {
      if Productive(q, server, done + 1) {
        PaginateGoesOn(q, server, done);
      } else {
        PaginateStopMeaning(q, server, done + 1, LinksOfPages(q, server, done), PageRequests(q, done));
      }
    }
  }

  /** The run goes on past a productive page. */
  lemma {:induction false} PaginateGoesOn(q: string, server: PageRequest -> Reply, done: nat)
    requires done < MaxPages
    requires Productive(q, server, done + 1)
    ensures Paginate(q, server, done + 1, LinksOfPages(q, server, done), PageRequests(q, done))
         == Expected(q, server, done + ProductiveRun(q, server, done + 1))
    decreases MaxPages - done, 0
  {
    var page := done + 1;
    var found := LinksOfPages(q, server, done);
    var requested := PageRequests(q, done);
    assert PageRequests(q, page) == requested + [PageRequest(q, page)];
    assert LinksOfPages(q, server, page) == found + PageLinks(q, server, page);
    assert done + ProductiveRun(q, server, page) == page + ProductiveRun(q, server, page + 1);
    PaginateContinues(q, server, page, found, requested);
    PaginateMeaning(q, server, page);
  }

  /** The run stops at an unproductive page. */
  lemma PaginateStopMeaning(q: string, server: PageRequest -> Reply, page: nat,
                            found: seq<string>, requested: seq<PageRequest>)
    requires 1 <= page <= MaxPages
    requires requested == PageRequests(q, page - 1)
    requires found == LinksOfPages(q, server, page - 1)
    requires !Productive(q, server, page)
    ensures Paginate(q, server, page, found, requested) == Expected(q, server, page - 1)
    ensures ProductiveRun(q, server, page) == 0
  {
    var request := PageRequest(q, page);
    assert PageRequests(q, page) == requested + [request];
    assert LinksOfPages(q, server, page) == found + PageLinks(q, server, page);
    PaginateStops(q, server, page, found, requested);
  }

  /** What `search_and_scrape` does, page by page. With `n` the number of
      productive pages in a row from page 1: it requests pages 1 to n + 1
      (never more than 6) in order; it fails only when the page that stopped
      it raised a transport error; otherwise it returns the record links of
      pages 1 to n, in page order and duplicates kept, each prefixed with the
      site origin. */
  lemma CollectionMeaning(query: string, server: PageRequest -> Reply)
    ensures var q := NormalizeQuery(query);
      var n := ProductiveRun(q, server, 1);
      var c := SearchAndScrape(query, server);
      && c.requested == PageRequests(q, PagesRequested(n))
      && (c.Aborted? <==> n < MaxPages && server(PageRequest(q, n + 1)).TransportError?)
      && (c.Collected? ==> c.links == Absolute(LinksOfPages(q, server, n)))
  {
    CollectMeaning(NormalizeQuery(query), server);
  }

  lemma CollectMeaning(q: string, server: PageRequest -> Reply)
    ensures var n := ProductiveRun(q, server, 1);
      var c := Collect(q, server);
      && c.requested == PageRequests(q, PagesRequested(n))
      && (c.Aborted? <==> n < MaxPages && server(PageRequest(q, n + 1)).TransportError?)
      && (c.Collected? ==> c.links == Absolute(LinksOfPages(q, server, n)))
  {
    var n := ProductiveRun(q, server, 1);
    var e := Expected(q, server, n);
    assert Paginate(q, server, 1, [], []) == e by {
      assert LinksOfPages(q, server, 0) == [] && PageRequests(q, 0) == [];
      PaginateMeaning(q, server, 0);
    }
    if e.Aborted? {
      assert Collect(q, server) == Aborted(e.requested);
    } else {
      assert Collect(q, server) == Collected(e.requested, Absolute(e.links));
    }
  }

  /** At most six pages are requested, page 1 first, page numbers rising by
      one; every requested page but the last was productive, and when fewer
      than six were requested the last one was not. */
  lemma PaginationBounds(query: string, server: PageRequest -> Reply)
    ensures var q := NormalizeQuery(query);
      var requested := SearchAndScrape(query, server).requested;
      && 1 <= |requested| <= MaxPages
      && (forall k :: 0 <= k < |requested| ==> requested[k] == PageRequest(q, k + 1))
      && (forall p :: 1 <= p < |requested| ==> Productive(q, server, p))
      && (|requested| < MaxPages ==> !Productive(q, server, |requested|))
  {
    CollectBounds(NormalizeQuery(query), server);
  }

  lemma CollectBounds(q: string, server: PageRequest -> Reply)
    ensures var requested := Collect(q, server).requested;
      && 1 <= |requested| <= MaxPages
      && (forall k :: 0 <= k < |requested| ==> requested[k] == PageRequest(q, k + 1))
      && (forall p :: 1 <= p < |requested| ==> Productive(q, server, p))
      && (|requested| < MaxPages ==> !Productive(q, server, |requested|))
  {
    var n := ProductiveRun(q, server, 1);
    assert Collect(q, server).requested == PageRequests(q, PagesRequested(n)) by {
      CollectMeaning(q, server);
    }
    ProductiveRunMeaning(q, server, 1);
    PageRequestsInOrder(q, PagesRequested(n));
  }

  /** Every link in `links` holds a record path. */
  predicate AllRecordLinks(links: seq<string>) {
    forall k :: 0 <= k < |links| ==> IsRecordLink(links[k])
  }

  lemma AllRecordLinksAppend(a: seq<string>, b: seq<string>)
    requires AllRecordLinks(a) && AllRecordLinks(b)
    ensures AllRecordLinks(a + b)
  {
    forall k | 0 <= k < |a + b| ensures IsRecordLink((a + b)[k]) {
      if k < |a| {
        assert (a + b)[k] == a[k];
      } else {
        assert (a + b)[k] == b[k - |a|];
      }
    }
  }

  lemma PageLinksAreRecordLinks(q: string, server: PageRequest -> Reply, n: nat)
    requires n >= 1
    ensures AllRecordLinks(PageLinks(q, server, n))
  {
    var reply := server(PageRequest(q, n));
    if reply.Reply? && reply.status == 200 {
      RecordLinksKeep(reply.hrefs);
    }
  }

  /** Every link of the record pages holds a record path. */
  lemma {:induction false} LinksOfPagesAreRecordLinks(q: string, server: PageRequest -> Reply, n: nat)
    ensures AllRecordLinks(LinksOfPages(q, server, n))
  {
    if n > 0 {
      var before := LinksOfPages(q, server, n - 1);
      var here := PageLinks(q, server, n);
      assert AllRecordLinks(before) by {
        LinksOfPagesAreRecordLinks(q, server, n - 1);
      }
      assert AllRecordLinks(here) by {
        PageLinksAreRecordLinks(q, server, n);
      }
      AllRecordLinksAppend(before, here);
    }
  }

  /** Every returned URL is the site origin followed by an href that
      contains a record path. */
  lemma CollectedUrlsAreRecordUrls(query: string, server: PageRequest -> Reply)
    ensures var c := SearchAndScrape(query, server);
      c.Collected? ==> forall k :: 0 <= k < |c.links| ==>
        Origin <= c.links[k] && IsRecordLink(c.links[k][|Origin|..])
  {
    CollectedRecordUrls(NormalizeQuery(query), server);
  }

  lemma CollectedRecordUrls(q: string, server: PageRequest -> Reply)
    ensures var c := Collect(q, server);
      c.Collected? ==> forall k :: 0 <= k < |c.links| ==>
        Origin <= c.links[k] && IsRecordLink(c.links[k][|Origin|..])
  {
    var c := Collect(q, server);
    var links := LinksOfPages(q, server, ProductiveRun(q, server, 1));
    assert c.Collected? ==> c.links == Absolute(links) by {
      CollectMeaning(q, server);
    }
    assert AllRecordLinks(links) by {
      LinksOfPagesAreRecordLinks(q, server, ProductiveRun(q, server, 1));
    }
    AbsoluteRecordUrls(links);
  }

  /** Prefixing the origin keeps the record path after it. */
  lemma AbsoluteRecordUrls(links: seq<string>)
    requires AllRecordLinks(links)
    ensures forall k :: 0 <= k < |Absolute(links)| ==>
      Origin <= Absolute(links)[k] && IsRecordLink(Absolute(links)[k][|Origin|..])
  {
    forall k | 0 <= k < |links| ensures (Origin + links[k])[|Origin|..] == links[k] { }
  }
}
