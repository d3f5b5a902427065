/** Report assembly (`create_word_doc`): the Word document written for a list
    of records, modelled as its sequence of paragraphs. Downloading each
    picture is an oracle `fetch` that tells, per URL, what happened; the
    rendering and saving of the file belong to the document library and are
    not modelled. */
module DocumentAssembler {
  import opened Text
  import opened Patterns
  import opened RecordExtractor
  import opened Sequences

  /** One entry of the document: a heading of some level, a plain text
      paragraph, or a paragraph holding the picture downloaded from `source`. */
  datatype Paragraph =
    | Heading(level: nat, content: string)
    | Plain(content: string)
    | Picture(source: string)

  /** What happens to one image URL:
      - `Served(status)`: the download answered with `status`; with 200 the
        picture is inserted;
      - `Unfetchable(error)`: the download raised, with message `error`;
      - `Undecodable(error)`: the download answered 200 but the picture could
        not be inserted, with message `error`. */
  datatype ImageFetch =
    | Served(status: int)
    | Unfetchable(error: string)
    | Undecodable(error: string)

  /** The saved file's name and its contents. */
  datatype Document = Document(filename: string, paragraphs: seq<Paragraph>)

  const ResultsTitle: string := "検索結果"
  const CountPrefix: string := "取得問題数: "
  const CountSuffix: string := "問"
  const SectionPrefix: string := "問題"
  const ProblemPrefix: string := "問題文: "
  const ImageFailedPrefix: string := "画像取得失敗: "
  const ImageErrorPrefix: string := "画像取得中エラー: "
  const ChoicesLabel: string := "選択肢:"
  const ExplanationPrefix: string := "解説: "
  const FilenameSuffix: string := "_search_results.docx"

  /** `ch * n`. */
  function Repeat(ch: char, n: nat): (r: string)
    ensures |r| == n
    ensures forall k :: 0 <= k < n ==> r[k] == ch
  {
    if n == 0 then [] else [ch] + Repeat(ch, n - 1)
  }

  /** The rule closing every section: fifty dashes. */
  const Separator: string := Repeat('-', 50)

  /** `f"取得問題数: {len(pages_data)}問"`. */
  function CountLine(n: nat): string {
    CountPrefix + NatToString(n) + CountSuffix
  }

  /** `f"問題{idx} {question_id}"`. */
  function SectionTitle(index: nat, questionId: string): string {
    SectionPrefix + NatToString(index) + " " + questionId
  }

  // ---------------------------------------------------------------------
  // Images

  /** The paragraphs one image URL adds. With status 200 the source adds a
      blank paragraph and then the picture, which the document library puts
      in a paragraph of its own. Any other status gives the failure notice
      naming the URL. When the download raises, the error notice follows.
      When inserting the picture raises, both blank paragraphs are already
      in the document (the explicit one and the one the library opened for
      the picture) before the error notice. */
  function ImageParagraphs(url: string, outcome: ImageFetch): seq<Paragraph> {
    match outcome
    case Served(status) =>
      if status == 200 then [Plain([]), Picture(url)] else [Plain(ImageFailedPrefix + url)]
    case Unfetchable(error) => [Plain(ImageErrorPrefix + error)]
    case Undecodable(error) => [Plain([]), Plain([]), Plain(ImageErrorPrefix + error)]
  }

  /** The one visible entry an image URL leaves in the document. */
  function VisibleEntry(url: string, outcome: ImageFetch): Paragraph {
    match outcome
    case Served(status) => if status == 200 then Picture(url) else Plain(ImageFailedPrefix + url)
    case Unfetchable(error) => Plain(ImageErrorPrefix + error)
    case Undecodable(error) => Plain(ImageErrorPrefix + error)
  }

  /** The loop over one record's image URLs; a failure never stops it. */
  function ImagesBlock(urls: seq<string>, fetch: string -> ImageFetch): seq<Paragraph> {
    if |urls| == 0 then []
    else ImageParagraphs(urls[0], fetch(urls[0])) + ImagesBlock(urls[1..], fetch)
  }

  // ---------------------------------------------------------------------
  // Sections and the document

  function ChoiceParagraphs(choices: seq<string>): seq<Paragraph> {
    if |choices| == 0 then [] else [Plain(choices[0])] + ChoiceParagraphs(choices[1..])
  }

  /** The section heading and the problem statement. */
  function SectionHead(index: nat, record: Record): seq<Paragraph> {
    [Heading(2, SectionTitle(index, record.questionId)), Plain(ProblemPrefix + record.problem)]
  }

  /** The image paragraphs, present only when images are wanted and the
      record has some. */
  function SectionImages(record: Record, includeImages: bool, fetch: string -> ImageFetch): seq<Paragraph> {
    if includeImages && |record.images| > 0 then ImagesBlock(record.images, fetch) else []
  }

  /** The choices under their label, the answer, the explanation and the
      closing rule. */
  function SectionTail(record: Record): seq<Paragraph> {
    [Plain(ChoicesLabel)] + ChoiceParagraphs(record.choices)
      + [Plain(record.answer), Plain(ExplanationPrefix + record.explanation), Plain(Separator)]
  }

  /** Everything one loop iteration of `create_word_doc` appends. */
  function Section(index: nat, record: Record, includeImages: bool, fetch: string -> ImageFetch): seq<Paragraph> {
    SectionHead(index, record) + SectionImages(record, includeImages, fetch) + SectionTail(record)
  }

  /** The sections of `records`, numbered from `first`. */
  function Sections(records: seq<Record>, first: nat, includeImages: bool, fetch: string -> ImageFetch): seq<Paragraph>
    decreases |records|
  {
    if |records| == 0 then []
    else Section(first, records[0], includeImages, fetch) + Sections(records[1..], first + 1, includeImages, fetch)
  }

  /** `f"{search_query}_search_results.docx"`. */
  function Filename(query: string): string {
    query + FilenameSuffix
  }

  /** `create_word_doc(pages_data, search_query, include_images)`: the
      document it saves, under the name it returns. */
  function CreateWordDoc(records: seq<Record>, query: string, includeImages: bool, fetch: string -> ImageFetch): Document {
    Document(
      Filename(query),
      [Heading(0, ResultsTitle), Plain(CountLine(|records|))] + Sections(records, 1, includeImages, fetch))
  }

  // ---------------------------------------------------------------------
  // Views of a paragraph sequence

  /** A paragraph that shows something: anything but a blank one. */
  predicate Shows(p: Paragraph) {
    p != Plain([])
  }

  /** The paragraphs that are not blank, in order. */
  function NonBlank(ps: seq<Paragraph>): seq<Paragraph> {
    Filter(ps, Shows)
  }

  /** The sources of the pictures, in order. */
  function Pictures(ps: seq<Paragraph>): seq<string> {
    if |ps| == 0 then []
    else (if ps[0].Picture? then [ps[0].source] else []) + Pictures(ps[1..])
  }

  /** The texts of the level-2 headings, in order. */
  function SectionTitles(ps: seq<Paragraph>): seq<string> {
    if |ps| == 0 then []
    else (if ps[0].Heading? && ps[0].level == 2 then [ps[0].content] else []) + SectionTitles(ps[1..])
  }

  lemma {:induction false} PicturesAppend(a: seq<Paragraph>, b: seq<Paragraph>)
    ensures Pictures(a + b) == Pictures(a) + Pictures(b)
    decreases |a|
  {
    if |a| == 0 {
      assert a + b == b;
    } else {
      assert (a + b)[0] == a[0];
      assert (a + b)[1..] == a[1..] + b;
      PicturesAppend(a[1..], b);
    }
  }

  lemma {:induction false} SectionTitlesAppend(a: seq<Paragraph>, b: seq<Paragraph>)
    ensures SectionTitles(a + b) == SectionTitles(a) + SectionTitles(b)
    decreases |a|
  {
    if |a| == 0 {
      assert a + b == b;
    } else {
      assert (a + b)[0] == a[0];
      assert (a + b)[1..] == a[1..] + b;
      SectionTitlesAppend(a[1..], b);
    }
  }

  /** A sequence without headings contributes no section title. */
  lemma {:induction false} NoHeadingNoTitle(ps: seq<Paragraph>)
    requires forall k :: 0 <= k < |ps| ==> !ps[k].Heading?
    ensures SectionTitles(ps) == []
    decreases |ps|
  {
    if |ps| > 0 {
      NoHeadingNoTitle(ps[1..]);
    }
  }

  /** A sequence without pictures contributes no picture. */
  lemma {:induction false} NoPictureNoSource(ps: seq<Paragraph>)
    requires forall k :: 0 <= k < |ps| ==> !ps[k].Picture?
    ensures Pictures(ps) == []
    decreases |ps|
  {
    if |ps| > 0 {
      NoPictureNoSource(ps[1..]);
    }
  }

  // ---------------------------------------------------------------------
  // Properties of the images block

  /** The URLs whose download is served with status 200, in order. */
  function ServedUrls(urls: seq<string>, fetch: string -> ImageFetch): seq<string> {
    Filter(urls, ServedBy(fetch))
  }

  /** Whether the download of a URL is served with status 200. */
  function ServedBy(fetch: string -> ImageFetch): string -> bool {
    url => fetch(url) == Served(200)
  }

  /** No image paragraph is a heading. */
  lemma {:induction false} ImagesBlockHasNoHeading(urls: seq<string>, fetch: string -> ImageFetch)
    ensures forall k :: 0 <= k < |ImagesBlock(urls, fetch)| ==> !ImagesBlock(urls, fetch)[k].Heading?
    decreases |urls|
  {
    if |urls| > 0 {
      ImagesBlockHasNoHeading(urls[1..], fetch);
    }
  }

  /** The blank paragraphs an image URL adds before its visible entry. */
  function LeadingBlanks(outcome: ImageFetch): seq<Paragraph> {
    match outcome
    case Served(status) => if status == 200 then [Plain([])] else []
    case Unfetchable(_) => []
    case Undecodable(_) => [Plain([]), Plain([])]
  }

  lemma ImageParagraphsSplit(url: string, outcome: ImageFetch)
    ensures ImageParagraphs(url, outcome) == LeadingBlanks(outcome) + [VisibleEntry(url, outcome)]
    ensures VisibleEntry(url, outcome) != Plain([])
  {
    var v := VisibleEntry(url, outcome);
    if v.Plain? {
      assert |v.content| > 0 by {
        assert v.content == ImageFailedPrefix + url || v.content == ImageErrorPrefix + outcome.error;
      }
    }
  }

  /** Blank paragraphs show nothing and hold no picture. */
  lemma {:induction false} BlanksShowNothing(ps: seq<Paragraph>)
    requires forall k :: 0 <= k < |ps| ==> ps[k] == Plain([])
    ensures NonBlank(ps) == [] && Pictures(ps) == []
    decreases |ps|
  {
    if |ps| > 0 {
      BlanksShowNothing(ps[1..]);
    }
  }

  /** One image URL leaves one visible entry. */
  lemma ImageParagraphsVisible(url: string, outcome: ImageFetch)
    ensures NonBlank(ImageParagraphs(url, outcome)) == [VisibleEntry(url, outcome)]
  {
    var blanks := LeadingBlanks(outcome);
    var v := VisibleEntry(url, outcome);
    ImageParagraphsSplit(url, outcome);
    FilterAppend(blanks, [v], Shows);
    BlanksShowNothing(blanks);
    assert [v][1..] == [];
  }

  /** One image URL gives a picture exactly when it is served with status 200. */
  lemma ImageParagraphsPictures(url: string, outcome: ImageFetch)
    ensures Pictures(ImageParagraphs(url, outcome)) == if outcome == Served(200) then [url] else []
  {
    var blanks := LeadingBlanks(outcome);
    var v := VisibleEntry(url, outcome);
    ImageParagraphsSplit(url, outcome);
    PicturesAppend(blanks, [v]);
    BlanksShowNothing(blanks);
    assert [v][1..] == [];
  }

  /** Every image URL leaves exactly one visible entry, in the URLs' order:
      the picture, the failure notice naming it, or the error notice. A
      failed URL does not end the block, so the URLs after it still get
      their entries. */
  lemma {:induction false} ImagesBlockMeaning(urls: seq<string>, fetch: string -> ImageFetch)
    ensures |NonBlank(ImagesBlock(urls, fetch))| == |urls|
    ensures forall k :: 0 <= k < |urls| ==>
      NonBlank(ImagesBlock(urls, fetch))[k] == VisibleEntry(urls[k], fetch(urls[k]))
    decreases |urls|
  {
    if |urls| > 0 {
      FilterAppend(ImageParagraphs(urls[0], fetch(urls[0])), ImagesBlock(urls[1..], fetch), Shows);
      ImageParagraphsVisible(urls[0], fetch(urls[0]));
      ImagesBlockMeaning(urls[1..], fetch);
    }
  }

  /** The pictures of the block are exactly the URLs served with status 200. */
  lemma {:induction false} ImagesBlockPictures(urls: seq<string>, fetch: string -> ImageFetch)
    ensures Pictures(ImagesBlock(urls, fetch)) == ServedUrls(urls, fetch)
    decreases |urls|
  {
    if |urls| > 0 {
      PicturesAppend(ImageParagraphs(urls[0], fetch(urls[0])), ImagesBlock(urls[1..], fetch));
      ImageParagraphsPictures(urls[0], fetch(urls[0]));
      ImagesBlockPictures(urls[1..], fetch);
    }
  }

  // ---------------------------------------------------------------------
  // Properties of one section

  lemma {:induction false} ChoiceParagraphsMeaning(choices: seq<string>)
    ensures |ChoiceParagraphs(choices)| == |choices|
    ensures forall k :: 0 <= k < |choices| ==> ChoiceParagraphs(choices)[k] == Plain(choices[k])
    decreases |choices|
  {
    if |choices| > 0 {
      ChoiceParagraphsMeaning(choices[1..]);
    }
  }

  /** A section opens with its numbered heading and the problem statement
      and closes with its tail (see `TailLayout`); the image paragraphs, if
      any, sit between the two parts. */
  lemma SectionLayout(index: nat, record: Record, includeImages: bool, fetch: string -> ImageFetch)
    ensures var s := Section(index, record, includeImages, fetch); var c := |record.choices|;
      && |s| >= c + 6
      && s[0] == Heading(2, SectionTitle(index, record.questionId))
      && s[1] == Plain(ProblemPrefix + record.problem)
      && s[2..|s| - c - 4] == SectionImages(record, includeImages, fetch)
      && s[|s| - c - 4..] == SectionTail(record)
  {
    var head := SectionHead(index, record);
    var images := SectionImages(record, includeImages, fetch);
    var tail := SectionTail(record);
    TailLength(record);
    ThreeParts(head, images, tail);
  }

  lemma TailLength(record: Record)
    ensures |SectionTail(record)| == |record.choices| + 4
  {
    ChoiceParagraphsMeaning(record.choices);
  }

  /** The tail of a section: the choices label, one paragraph per choice,
      the answer, the explanation and the rule. */
  lemma TailLayout(record: Record)
    ensures var t := SectionTail(record); var c := |record.choices|;
      && |t| == c + 4
      && t[0] == Plain(ChoicesLabel)
      && (forall k :: 0 <= k < c ==> t[1 + k] == Plain(record.choices[k]))
      && t[c + 1] == Plain(record.answer)
      && t[c + 2] == Plain(ExplanationPrefix + record.explanation)
      && t[c + 3] == Plain(Separator)
  {
    ChoiceParagraphsMeaning(record.choices);
  }

  /** Where the three parts of a concatenation sit. */
  lemma ThreeParts<T>(a: seq<T>, b: seq<T>, c: seq<T>)
    ensures var s := a + b + c;
      s[..|a|] == a && s[|a|..|s| - |c|] == b && s[|s| - |c|..] == c
  {
  }

  /** A section has exactly one level-2 heading: its own title. */
  lemma SectionHasOneTitle(index: nat, record: Record, includeImages: bool, fetch: string -> ImageFetch)
    ensures SectionTitles(Section(index, record, includeImages, fetch)) == [SectionTitle(index, record.questionId)]
  {
    var head := SectionHead(index, record);
    var images := SectionImages(record, includeImages, fetch);
    var tail := SectionTail(record);
    SectionTitlesAppend(head + images, tail);
    SectionTitlesAppend(head, images);
    assert SectionTitles(head) == [SectionTitle(index, record.questionId)] by {
      assert head[1..][1..] == [];
    }
    ImagesBlockHasNoHeading(record.images, fetch);
    NoHeadingNoTitle(images);
    TailIsPlain(record);
    NoHeadingNoTitle(tail);
  }

  /** Every paragraph of a section's tail is plain text. */
  lemma TailIsPlain(record: Record)
    ensures forall m :: 0 <= m < |SectionTail(record)| ==> SectionTail(record)[m].Plain?
  {
    var t := SectionTail(record);
    var c := |record.choices|;
    TailLayout(record);
    forall m | 0 <= m < |t| ensures t[m].Plain? {
      if 1 <= m <= c {
        assert t[1 + (m - 1)] == Plain(record.choices[m - 1]);
      }
    }
  }

  /** The pictures of a section are its record's images served with status
      200, and none at all when images are not wanted. */
  lemma SectionPictures(index: nat, record: Record, includeImages: bool, fetch: string -> ImageFetch)
    ensures Pictures(Section(index, record, includeImages, fetch))
      == if includeImages then ServedUrls(record.images, fetch) else []
  {
    var head := SectionHead(index, record);
    var images := SectionImages(record, includeImages, fetch);
    var tail := SectionTail(record);
    PicturesAppend(head + images, tail);
    PicturesAppend(head, images);
    NoPictureNoSource(head);
    TailIsPlain(record);
    NoPictureNoSource(tail);
    if includeImages && |record.images| > 0 {
      ImagesBlockPictures(record.images, fetch);
    } else {
      assert images == [];
    }
  }

  // ---------------------------------------------------------------------
  // Properties of the document

  /** Every image URL of every record, in order. */
  function AllImages(records: seq<Record>): seq<string> {
    if |records| == 0 then [] else records[0].images + AllImages(records[1..])
  }

  /** The sections carry one title per record, numbered consecutively from
      `first`, in the records' order. */
  lemma {:induction false} SectionsTitles(records: seq<Record>, first: nat, includeImages: bool, fetch: string -> ImageFetch)
    ensures SectionTitles(Sections(records, first, includeImages, fetch)) == NumberedTitles(records, first)
    decreases |records|
  {
    if |records| > 0 {
      SectionTitlesAppend(Section(first, records[0], includeImages, fetch), Sections(records[1..], first + 1, includeImages, fetch));
      SectionHasOneTitle(first, records[0], includeImages, fetch);
      SectionsTitles(records[1..], first + 1, includeImages, fetch);
      NumberedTitlesStep(records, first);
    }
  }

  /** The titles the records should get, the k-th numbered `first + k`. */
  function NumberedTitles(records: seq<Record>, first: nat): (r: seq<string>)
    ensures |r| == |records|
  {
    seq(|records|, k requires 0 <= k < |records| => SectionTitle(first + k, records[k].questionId))
  }

  lemma NumberedTitlesStep(records: seq<Record>, first: nat)
    requires |records| > 0
    ensures NumberedTitles(records, first)
      == [SectionTitle(first, records[0].questionId)] + NumberedTitles(records[1..], first + 1)
  {
    var r := NumberedTitles(records, first);
    var rest := NumberedTitles(records[1..], first + 1);
    forall k | 1 <= k < |records| ensures r[k] == rest[k - 1] {
      assert records[1..][k - 1] == records[k];
    }
  }

  lemma {:induction false} SectionsPictures(records: seq<Record>, first: nat, includeImages: bool, fetch: string -> ImageFetch)
    ensures Pictures(Sections(records, first, includeImages, fetch))
      == if includeImages then ServedUrls(AllImages(records), fetch) else []
    decreases |records|
  {
    if |records| > 0 {
      PicturesAppend(Section(first, records[0], includeImages, fetch), Sections(records[1..], first + 1, includeImages, fetch));
      SectionPictures(first, records[0], includeImages, fetch);
      SectionsPictures(records[1..], first + 1, includeImages, fetch);
      FilterAppend(records[0].images, AllImages(records[1..]), ServedBy(fetch));
    }
  }

  /** The document opens with the results heading and the record count, and
      holds nothing else when there are no records. */
  lemma DocumentOpening(records: seq<Record>, query: string, includeImages: bool, fetch: string -> ImageFetch)
    ensures var ps := CreateWordDoc(records, query, includeImages, fetch).paragraphs;
      && |ps| >= 2
      && ps[0] == Heading(0, ResultsTitle)
      && ps[1] == Plain(CountLine(|records|))
      && (|records| == 0 <==> |ps| == 2)
  {
    if |records| > 0 {
      SectionLayout(1, records[0], includeImages, fetch);
    }
  }

  /** The document has one section per record, in input order, the i-th
      titled with the number i (counting from 1) and the record's question
      id. */
  lemma DocumentSections(records: seq<Record>, query: string, includeImages: bool, fetch: string -> ImageFetch)
    ensures SectionTitles(CreateWordDoc(records, query, includeImages, fetch).paragraphs) == NumberedTitles(records, 1)
  {
    var opening := [Heading(0, ResultsTitle), Plain(CountLine(|records|))];
    SectionTitlesAppend(opening, Sections(records, 1, includeImages, fetch));
    NoHeadingNoTitle(opening[1..]);
    SectionsTitles(records, 1, includeImages, fetch);
  }

  /** The document's pictures are the records' image URLs served with status
      200, in order; without images there is no picture. */
  lemma DocumentPictures(records: seq<Record>, query: string, includeImages: bool, fetch: string -> ImageFetch)
    ensures Pictures(CreateWordDoc(records, query, includeImages, fetch).paragraphs)
      == if includeImages then ServedUrls(AllImages(records), fetch) else []
  {
    var opening := [Heading(0, ResultsTitle), Plain(CountLine(|records|))];
    PicturesAppend(opening, Sections(records, 1, includeImages, fetch));
    NoPictureNoSource(opening);
    SectionsPictures(records, 1, includeImages, fetch);
  }

  /** A section title determines its number and its question id: titles
      with different numbers differ, whatever the ids. The number is the run
      of digits after the prefix, ended by the space. */
  lemma SectionTitleInjective(i: nat, a: string, j: nat, b: string)
    requires SectionTitle(i, a) == SectionTitle(j, b)
    ensures i == j && a == b
  {
    var x := NatToString(i);
    var y := NatToString(j);
    var p := |SectionPrefix|;
    assert SectionTitle(i, a) == SectionPrefix + (x + " " + a);
    assert SectionTitle(j, b) == SectionPrefix + (y + " " + b);
    assert (SectionPrefix + (x + " " + a))[p..] == x + " " + a;
    assert (SectionPrefix + (y + " " + b))[p..] == y + " " + b;
    NumeralThenSpace(x, a);
    NumeralThenSpace(y, b);
    assert x == y;
    assert a == (x + " " + a)[|x| + 1..];
    assert b == (y + " " + b)[|y| + 1..];
    NatToStringRoundTrip(i);
    NatToStringRoundTrip(j);
  }

  /** The digit run at the start of a numeral followed by a space is the
      numeral itself. */
  lemma NumeralThenSpace(x: string, a: string)
    requires forall k :: 0 <= k < |x| ==> IsAsciiDigit(x[k])
    ensures DigitRunEnd(x + " " + a, 0) == |x|
    ensures (x + " " + a)[..|x|] == x
  {
    var s := x + " " + a;
    assert s[|x|] == ' ';
    assert DigitsBetween(s, 0, |x|) by {
      forall k | 0 <= k < |x| ensures IsAsciiDigit(s[k]) {
        assert s[k] == x[k];
      }
    }
    RunEndUnique(s, 0, |x|);
  }

  /** The returned name ends with `_search_results.docx` and starts with the
      query as given. */
  lemma FilenameShape(query: string)
    ensures EndsWith(Filename(query), FilenameSuffix)
    ensures Filename(query)[..|query|] == query
  {
    var f := Filename(query);
    assert f[|f| - |FilenameSuffix|..] == FilenameSuffix;
  }

  /** Reads the query back from a file name. */
  function QueryOfFilename(name: string): string
    requires EndsWith(name, FilenameSuffix)
  {
    name[..|name| - |FilenameSuffix|]
  }

  /** The query can be read back from the file name, so different queries
      give different files. */
  lemma FilenameRoundTrip(query: string)
    ensures EndsWith(Filename(query), FilenameSuffix)
    ensures QueryOfFilename(Filename(query)) == query
  {
    FilenameShape(query);
  }
}
