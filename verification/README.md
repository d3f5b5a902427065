# medu4 quiz scraper — a Dafny model of its core

`searchnew.py` searches the quiz catalogue at `https://medu4.com` for a
keyword. It collects the links of the matching quiz records from up to six
result pages, reads the fields of every record page, and writes a Word
report with one section per record. This project models the three functions
that do this work, plus the data flow of the button handler that chains them:

- `LinkCollector` (`link_collector.dfy`) models `search_and_scrape`. It covers:
  - query normalisation (`strip`, then every space replaced by `%20`);
  - the result-page URLs;
  - the pagination loop, capped at six pages, which stops at the first
    non-200 reply or the first page without record links;
  - the href filter for `/([1-9][0-9]{2,})[A-Za-z]\d{2}`;
  - the origin prefix.

  The web server is a parameter `server: PageRequest -> Reply`. A `Reply`
  is a status code with the hrefs of the page's anchors, or a transport
  error. The source does not catch a transport error on a result page, so
  it ends the whole search: the collection is `Aborted`, and `RunSearch`
  gives `Failed`.
- `RecordExtractor` (`record_extractor.dfy`) models `get_page_text`. A page
  is a `RecordPage`: the texts and hrefs of the elements the selectors
  locate. The model covers:
  - the placeholder texts for missing elements;
  - the "at least two `h4`" rule;
  - the question-id search;
  - choice formatting;
  - the `.jpg` filter with `thumb_` removal.
- `DocumentAssembler` (`document_assembler.dfy`) models `create_word_doc`.
  The document is its list of `Paragraph`s plus the returned file name. An
  image download is an oracle `fetch: string -> ImageFetch`, which can:
  - answer with a status: 200 adds a blank paragraph and the picture, any
    other status adds `画像取得失敗: {url}`;
  - raise: this adds `画像取得中エラー: {e}`, the exception text, not the
    URL (searchnew.py:112-113);
  - answer 200 with bytes the picture insertion rejects: the document then
    already holds two blank paragraphs, the explicit one and the one the
    library opened for the picture, before the same error notice.
- `SearchReport` (`search_report.dfy`) models the data flow of `run_search`:
  collect the links, extract every record, assemble the report.
- `Text` (`text.dfy`) writes out the Python string built-ins used: `str.strip()`,
  `str.replace`, `str.endswith` and `str(n)`.
- `Patterns` (`patterns.dfy`) writes out the two regular expressions as
  string predicates, together with the leftmost search that `re.search`
  performs.
- `Sequences` (`sequences.dfy`) is the list comprehension with a condition,
  `[x for x in s if keep(x)]`, used by the link filter and by the model's
  views of a document.
- `Optional` (`optional.dfy`) is the option type.

Each operation is paired with a reference description, and lemmas connect
the two:
- the pagination loop is checked against a page-by-page account of which
  pages are productive (`Expected`);
- the filter is checked against the regular expression's match relation
  (`RecordPathAt`);
- the question-id search is checked against the leftmost-longest match
  (`FirstLongestIdAt`);
- the record list built by the append recursion is checked index by index
  against `get_page_text` of each URL's page (`Records`);
- the document is checked through the views `SectionTitles`, `NonBlank` and
  `Pictures`.

## Model

| member | source | states |
|---|---|---|
| LinkCollector.NormalizeQuery | searchnew.py:12 | the normalised query contains no space and has no whitespace at either end |
| LinkCollector.NormalizeIdempotent | searchnew.py:12 | normalising an already normalised query gives it back unchanged |
| LinkCollector.NormalizeDecodes | searchnew.py:12 | for a query without `%`, replacing every `%20` of the normalised query by a space gives back the stripped query: each space, and nothing else, was percent-encoded |
| Text.StripShape | searchnew.py:12 | `strip()` leaves a text with no whitespace at either end, found in the input with only whitespace before and after it |
| Text.StripPadded | searchnew.py:12 | stripping whitespace padding around a text with no whitespace at its ends gives back exactly that text |
| Text.StripIdempotent | searchnew.py:12 | stripping twice is stripping once |
| LinkCollector.PageUrlCarriesPage | searchnew.py:18-21 | reading the page parameter back from a result-page URL gives nothing for page 1 and the page number for every later page |
| Text.NatToString | searchnew.py:21 | `str(n)` is a non-empty string of ASCII digits with no leading zero |
| Text.NatToStringRoundTrip | searchnew.py:21 | `str(n)` read back as a decimal numeral is `n` |
| Patterns.IsRecordLinkMeaning | searchnew.py:15 | the left-to-right scan accepts a link exactly when some substring matches `/[1-9][0-9]{2,}[A-Za-z]\d{2}` |
| LinkCollector.RecordLinksKeep | searchnew.py:28-29 | every kept href matches the pattern, and every matching href is kept exactly as often as it occurs (duplicates stay) |
| LinkCollector.RecordLinksAppend | searchnew.py:29 | the filter keeps document order: filtering a concatenation concatenates the filtered parts |
| LinkCollector.CollectionMeaning | searchnew.py:12-38 | with n the number of consecutive productive pages from page 1, the run requests pages 1 to n + 1 (at most 6) in order; it aborts exactly when the stopping page raised a transport error; otherwise it returns the record links of pages 1 to n, in page order, each prefixed with the origin |
| LinkCollector.PaginationBounds | searchnew.py:17-35 | between 1 and 6 pages are requested, numbered 1, 2, … in order; every requested page except the last was productive (status 200 and a record link); when fewer than 6 were requested, the last one was not productive |
| LinkCollector.CollectedUrlsAreRecordUrls | searchnew.py:29-38 | every returned URL is `https://medu4.com` followed by an href that matches the record pattern |
| Patterns.SearchQuestionId | searchnew.py:63-65 | gives nothing exactly when `[0-9]{3}[A-Za-z][0-9]+` matches nowhere; otherwise gives the leftmost match, with its digit tail as long as possible |
| Patterns.FirstLongestIdUnique | searchnew.py:63-65 | at most one match is leftmost and longest, so the search result is fully determined |
| RecordExtractor.AnswerAndId | searchnew.py:58-65 | with fewer than two `h4` texts, answer and id are both placeholders; otherwise the answer is the stripped first text, and the id is the placeholder exactly when the second, unstripped text has no id match, and is the leftmost-longest match when it has one |
| RecordExtractor.MatchIsNotPlaceholder | searchnew.py:59-65 | a question-id match never equals the placeholder `問題番号なし`, so the placeholder tells "no match" apart |
| RecordExtractor.TextOrMeaning | searchnew.py:46-50 | a missing element gives its placeholder; a present one gives its text without surrounding whitespace, which sits inside the element text with only whitespace around it |
| RecordExtractor.ChoicesMeaning | searchnew.py:52-56 | there is one choice entry per choice box, in the boxes' order, the k-th formatted from the k-th box |
| RecordExtractor.ChoiceSplitsBack | searchnew.py:56 | when the header has no space, splitting a choice entry at its first space gives back the header and the text |
| RecordExtractor.ChoiceExample | searchnew.py:54-56 | a box with header `A` and text `Paris` gives `A Paris` |
| RecordExtractor.UnthumbKeepsJpg | searchnew.py:77-78 | removing `thumb_` from a `.jpg` href leaves a `.jpg` URL |
| RecordExtractor.UnthumbExample | searchnew.py:78 | `thumb_fig1.jpg` becomes `fig1.jpg` |
| RecordExtractor.AnchorImages | searchnew.py:74-79 | every image URL taken from one image div ends with `.jpg` |
| RecordExtractor.ImageUrls | searchnew.py:70-79 | every collected image URL ends with `.jpg` |
| RecordExtractor.ImageUrlsMeaning | searchnew.py:70-79 | the image list is exactly the non-empty `.jpg` hrefs of all anchors of all image divs, in document order, each with `thumb_` removed |
| RecordExtractor.GetPageText | searchnew.py:42-89 | every field is filled; category, problem and explanation are independently the stripped text or their placeholder; choices, answer and id are as stated above; the image list is empty without images and otherwise is the list `ImageUrls` computes from the page's image divs, all `.jpg` URLs |
| DocumentAssembler.Repeat | searchnew.py:120 | `"-" * 50` is fifty dashes |
| DocumentAssembler.DocumentOpening | searchnew.py:93-97 | the document opens with the results heading and the line `取得問題数: {n}問`, and holds nothing else exactly when there are no records |
| DocumentAssembler.DocumentSections | searchnew.py:97-99 | the level-2 headings are exactly one per record, in input order, the i-th reading `問題{i} {question_id}` with i counted from 1 |
| DocumentAssembler.SectionTitleInjective | searchnew.py:98 | different section numbers or ids always give different titles |
| DocumentAssembler.SectionLayout | searchnew.py:97-120 | a section starts with its title heading and the problem line, ends with its tail, and holds only the image paragraphs in between |
| DocumentAssembler.TailLayout | searchnew.py:115-120 | the tail is `選択肢:`, then one paragraph per choice in order, then the answer, `解説: …`, and the fifty-dash rule |
| DocumentAssembler.SectionHasOneTitle | searchnew.py:97-120 | a section holds exactly one level-2 heading, its own title |
| DocumentAssembler.ImageParagraphsVisible | searchnew.py:104-113 | one image URL leaves exactly one non-blank entry: the picture on 200, a failure notice naming the URL on another status, the error notice when the download or the insertion raises |
| DocumentAssembler.ImagesBlockMeaning | searchnew.py:102-113 | every image URL leaves its own entry, in order; a failed URL does not stop the URLs after it |
| DocumentAssembler.ImagesBlockPictures | searchnew.py:103-109 | the pictures of an image block are exactly the URLs served with status 200, in order |
| DocumentAssembler.SectionPictures | searchnew.py:102-109 | a section's pictures are its record's images served with 200, and there are none when images are off |
| DocumentAssembler.DocumentPictures | searchnew.py:97-109 | the document's pictures are all records' image URLs served with 200, in order, and there are none when images are off |
| DocumentAssembler.FilenameShape | searchnew.py:122-124 | the returned name is the query followed by `_search_results.docx` |
| DocumentAssembler.FilenameRoundTrip | searchnew.py:122-124 | the query can be read back from the file name, so different queries give different names |
| SearchReport.Records | searchnew.py:141-144 | one record is extracted per collected URL, in order: the k-th record is what `get_page_text` reads from the page at the k-th URL |
| SearchReport.ReportSections | searchnew.py:132-157 | a report exists only for a completed collection with at least one URL; it has one section per URL, in order, titled with the number and the question id of that URL's page; it is saved under the query as typed; no URL means the "no results" message; an aborted collection means failure |
| SearchReport.TextOnlySearch | searchnew.py:132-165 | the search without images holds no picture, and its report does not depend on what the image server answers |
| SearchReport.ReportPicturesAreJpg | searchnew.py:132-151 | every picture of a report comes from a `.jpg` URL |

## Left out

- The Streamlit interface (`searchnew.py:127-165`) is not modelled: title, text input, columns, buttons, spinners, progress bar, status text, success and error messages, and the download button. Only the data flow of `run_search` is modelled, in `SearchReport`. The query typed in is a parameter.
- The HTTP layer is not modelled. `requests.get` of a result page is the parameter `server`. The record page fetched from a URL is the parameter `pages`. An image download is the parameter `fetch`.
- `time.sleep(0.5)` has no observable effect on the results and is not modelled.
- HTML parsing (BeautifulSoup) is not modelled. A result page is given as the `href` of each anchor that has one. A record page is given as the `.text` of each element the selectors locate, plus the anchor hrefs of each image div.
- python-docx rendering, `doc.save` and reading the saved file back are not modelled. The document is its list of paragraphs plus its file name. Heading level 0 (the title style) and the `Heading2` paragraph style are both written as `Heading` with their level.
- The picture width `Inches(2.5)` is a float layout detail and is not modelled.
- The exception text of a failed image download is an opaque string carried by the oracle.
- SearchReport.Records: a transport error while fetching a record page is left out: `pages` gives a page for every URL. The source does not catch this error. A non-200 record page is still parsed by the source, and `pages` covers that case.
- RecordExtractor.GetPageText: it requires every choice box to have a header span and at least two spans. The source does not handle a malformed box: it fails with an exception there, and that failure is not modelled. `SearchReport.RunSearch` therefore requires this only of the pages at the collected links, which are the only pages it parses.
- The oracles `server`, `pages` and `fetch` are pure functions. A record link the filter keeps twice, or an image URL that appears twice, therefore always gets the same page or the same download outcome. The source downloads each occurrence again, and the server could answer differently each time.
- Patterns.IsRecordLinkMeaning: `\d` is read as an ASCII digit. For `str` patterns, Python's `\d` also matches other Unicode decimal digits, so a link ending in such digits, e.g. full-width ones, passes the source's filter but not the model's. The other digit classes of both patterns are `[0-9]`, which the model matches exactly.
- Text.Replace is defined for a non-empty pattern only. The source replaces `' '` (searchnew.py:12) and `'thumb_'` (searchnew.py:78), both non-empty. The decoding in LinkCollector.NormalizeDecodes, which is not part of the source, replaces `"%20"`, also non-empty.
- LinkCollector.NormalizeDecodes: the decoding property is proved for queries that hold no `%` of their own. The source passes a `%` in the query on as typed, so a typed `%20` reads back as a space that was never typed. A `%` that does not start a typed `%20` decodes back unchanged, but the model does not prove that wider case.
