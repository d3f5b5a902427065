/** The data flow of one search (`run_search`): collect the record links,
    extract a record from every linked page, and assemble the report. The
    widgets, progress display and download button around it are not
    modelled; fetching a record page is the parameter `pages`, which gives
    the page found at each URL. */
module SearchReport {
  import opened Text
  import opened LinkCollector
  import opened RecordExtractor
  import opened DocumentAssembler
  import opened Sequences

  /** How a search ends: no record link found (an error message is shown),
      a report, or an uncaught transport error while collecting links. */
  datatype Outcome = NoResults | Report(document: Document) | Failed

  /** The pages at `urls` have well-formed choice boxes. */
  predicate WellFormedAt(urls: seq<string>, pages: string -> RecordPage) {
    forall k :: 0 <= k < |urls| ==> AllWellFormed(pages(urls[k]).choiceBoxes)
  }

  /** The pages of the record links a search collects have well-formed
      choice boxes: the only pages `run_search` parses. */
  predicate WellFormedResults(query: string, server: PageRequest -> Reply, pages: string -> RecordPage) {
    var c := SearchAndScrape(query, server);
    c.Collected? ==> WellFormedAt(c.links, pages)
  }

  /** The loop that appends `get_page_text(url, get_images)` for every
      collected URL: one record per URL, in the order of the URLs. */
  function Records(urls: seq<string>, pages: string -> RecordPage, getImages: bool): (r: seq<Record>)
    requires WellFormedAt(urls, pages)
    ensures |r| == |urls|
    ensures forall k :: 0 <= k < |urls| ==> r[k] == GetPageText(pages(urls[k]), getImages)
    decreases |urls|
  {
    if |urls| == 0 then []
    else
      assert WellFormedAt(urls[1..], pages) by {
        forall k | 0 <= k < |urls[1..]| ensures AllWellFormed(pages(urls[1..][k]).choiceBoxes) {
          assert urls[1..][k] == urls[k + 1];
        }
      }
      [GetPageText(pages(urls[0]), getImages)] + Records(urls[1..], pages, getImages)
  }

  /** `run_search(get_images)` for the query typed in. */
  function RunSearch(query: string, server: PageRequest -> Reply, pages: string -> RecordPage,
                     getImages: bool, fetch: string -> ImageFetch): Outcome
    requires WellFormedResults(query, server, pages)
  {
    match SearchAndScrape(query, server)
    case Aborted(_) => Failed
    case Collected(_, urls) =>
      if |urls| == 0 then NoResults
      else Report(CreateWordDoc(Records(urls, pages, getImages), query, getImages, fetch))
  }

  /** A report has one section per collected URL, in the order the URLs were
      collected, numbered from 1 and titled with the question id read from
      that URL's page; it is saved under the query as typed, not under its
      normalised form. */
  lemma ReportSections(query: string, server: PageRequest -> Reply, pages: string -> RecordPage,
                       getImages: bool, fetch: string -> ImageFetch)
    requires WellFormedResults(query, server, pages)
    ensures var c := SearchAndScrape(query, server);
      match RunSearch(query, server, pages, getImages, fetch)
      case Report(doc) =>
        && c.Collected? && |c.links| > 0
        && doc.filename == query + FilenameSuffix
        && var titles := SectionTitles(doc.paragraphs);
          |titles| == |c.links|
          && forall k :: 0 <= k < |c.links| ==>
               titles[k] == SectionTitle(k + 1, AnswerAndId(pages(c.links[k]).headings).1)
      case NoResults => c.Collected? && c.links == []
      case Failed => c.Aborted?
  {
    var c := SearchAndScrape(query, server);
    if c.Collected? && |c.links| > 0 {
      RecordsSections(c.links, pages, query, getImages, fetch);
    }
  }

  /** The report built from the pages at `urls` has one section per URL,
      titled with the number and the question id of that URL's page. */
  lemma RecordsSections(urls: seq<string>, pages: string -> RecordPage, query: string,
                        getImages: bool, fetch: string -> ImageFetch)
    requires WellFormedAt(urls, pages)
    ensures var titles := SectionTitles(CreateWordDoc(Records(urls, pages, getImages), query, getImages, fetch).paragraphs);
      |titles| == |urls|
      && forall k :: 0 <= k < |urls| ==> titles[k] == SectionTitle(k + 1, AnswerAndId(pages(urls[k]).headings).1)
  {
    var records := Records(urls, pages, getImages);
    var titles := SectionTitles(CreateWordDoc(records, query, getImages, fetch).paragraphs);
    assert titles == NumberedTitles(records, 1) by {
      DocumentSections(records, query, getImages, fetch);
    }
    forall k | 0 <= k < |urls|
      ensures titles[k] == SectionTitle(k + 1, AnswerAndId(pages(urls[k]).headings).1)
    {
      assert titles[k] == SectionTitle(1 + k, records[k].questionId);
      assert records[k] == GetPageText(pages(urls[k]), getImages);
    }
  }

  /** The search without images downloads no picture: its report holds no
      picture and does not depend on what the image server would answer. */
  lemma TextOnlySearch(query: string, server: PageRequest -> Reply, pages: string -> RecordPage,
                       fetch: string -> ImageFetch, other: string -> ImageFetch)
    requires WellFormedResults(query, server, pages)
    ensures RunSearch(query, server, pages, false, fetch) == RunSearch(query, server, pages, false, other)
    ensures var o := RunSearch(query, server, pages, false, fetch);
      o.Report? ==> Pictures(o.document.paragraphs) == []
  {
    var c := SearchAndScrape(query, server);
    if c.Collected? && |c.links| > 0 {
      var records := Records(c.links, pages, false);
      SectionsIgnoreFetch(records, 1, fetch, other);
      DocumentPictures(records, query, false, fetch);
    }
  }

  /** Without images, the sections never consult the image oracle. */
  lemma {:induction false} SectionsIgnoreFetch(records: seq<Record>, first: nat,
                                               fetch: string -> ImageFetch, other: string -> ImageFetch)
    ensures Sections(records, first, false, fetch) == Sections(records, first, false, other)
    decreases |records|
  {
    if |records| > 0 {
      SectionsIgnoreFetch(records[1..], first + 1, fetch, other);
    }
  }

  /** Every picture of a report shows an image URL of one of its records,
      and every such URL ends with `.jpg`. */
  lemma ReportPicturesAreJpg(query: string, server: PageRequest -> Reply, pages: string -> RecordPage,
                             getImages: bool, fetch: string -> ImageFetch)
    requires WellFormedResults(query, server, pages)
    ensures var o := RunSearch(query, server, pages, getImages, fetch);
      o.Report? ==> forall k :: 0 <= k < |Pictures(o.document.paragraphs)| ==>
        EndsWith(Pictures(o.document.paragraphs)[k], ".jpg")
  {
    var c := SearchAndScrape(query, server);
    if c.Collected? && |c.links| > 0 {
      assert RunSearch(query, server, pages, getImages, fetch)
        == Report(CreateWordDoc(Records(c.links, pages, getImages), query, getImages, fetch));
      RecordsPicturesAreJpg(c.links, pages, query, getImages, fetch);
    }
  }

  lemma RecordsPicturesAreJpg(urls: seq<string>, pages: string -> RecordPage, query: string,
                              getImages: bool, fetch: string -> ImageFetch)
    requires WellFormedAt(urls, pages)
    ensures var ps := Pictures(CreateWordDoc(Records(urls, pages, getImages), query, getImages, fetch).paragraphs);
      forall k :: 0 <= k < |ps| ==> EndsWith(ps[k], ".jpg")
  {
    var records := Records(urls, pages, getImages);
    DocumentPictures(records, query, getImages, fetch);
    if getImages {
      forall k, m | 0 <= k < |records| && 0 <= m < |records[k].images|
        ensures EndsWith(records[k].images[m], ".jpg")
      {
        assert records[k] == GetPageText(pages(urls[k]), getImages);
      }
      AllImagesJpg(records);
      ServedUrlsAreAmong(AllImages(records), fetch);
    }
  }

  /** The URLs served with status 200 are among the URLs asked for. */
  lemma ServedUrlsAreAmong(urls: seq<string>, fetch: string -> ImageFetch)
    ensures forall k :: 0 <= k < |ServedUrls(urls, fetch)| ==> ServedUrls(urls, fetch)[k] in urls
  {
    var served := ServedUrls(urls, fetch);
    FilterKeep(urls, ServedBy(fetch));
    forall k | 0 <= k < |served| ensures served[k] in urls {
      assert multiset(served)[served[k]] > 0;
    }
  }

  /** The image URLs of extracted records all end with `.jpg`. */
  lemma {:induction false} AllImagesJpg(records: seq<Record>)
    requires forall k, m :: 0 <= k < |records| && 0 <= m < |records[k].images| ==>
      EndsWith(records[k].images[m], ".jpg")
    ensures forall u :: u in AllImages(records) ==> EndsWith(u, ".jpg")
    decreases |records|
  {
    if |records| > 0 {
      AllImagesJpg(records[1..]);
      assert forall m :: 0 <= m < |records[0].images| ==> EndsWith(records[0].images[m], ".jpg");
    }
  }
}
