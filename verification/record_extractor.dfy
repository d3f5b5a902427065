/** Record extraction (`get_page_text`): the fields of one quiz record, read
    from the elements of its page. HTML parsing is not modelled: a page is
    given as the texts and attributes of the elements the scraper's selectors
    locate, in document order. Every field of the result is always filled,
    with a fixed placeholder text when its element is missing. */
module RecordExtractor {
  import opened Optional
  import opened Text
  import opened Patterns

  /** One choice box (`div.box-select`): the text of its `span.choice-header`
      when it has one, and the texts of all its spans, in document order. */
  datatype ChoiceBox = ChoiceBox(header: Option<string>, spans: seq<string>)

  /** A record page as the selectors see it:
      - `category`: the text of the first `span.button-small-line`, if any;
      - `problem`: the text of the first `div.quiz-body.mb-64`, if any;
      - `choiceBoxes`: every `div.box-select`;
      - `headings`: the text of every `h4`;
      - `explanation`: the text of the first `div.explanation`, if any;
      - `imageDivs`: for every `div.box-quiz-image.mb-32`, the `href`
        attribute of each anchor inside it (None when it has none). */
  datatype RecordPage = RecordPage(
    category: Option<string>,
    problem: Option<string>,
    choiceBoxes: seq<ChoiceBox>,
    headings: seq<string>,
    explanation: Option<string>,
    imageDivs: seq<seq<Option<string>>>)

  /** The dictionary `get_page_text` returns. */
  datatype Record = Record(
    category: string,
    problem: string,
    choices: seq<string>,
    answer: string,
    questionId: string,
    explanation: string,
    images: seq<string>)

  const NoCategory: string := "分野名なし"
  const NoProblem: string := "問題文なし"
  const NoAnswer: string := "解答なし"
  const NoQuestionId: string := "問題番号なし"
  const NoExplanation: string := "解説なし"

  /** `element.text.strip() if element else placeholder`. */
  function TextOr(element: Option<string>, placeholder: string): string {
    match element
    case Some(text) => Strip(text)
    case None => placeholder
  }

  // ---------------------------------------------------------------------
  // Choices

  /** The source reads the header span and the second span of every choice
      box without checking that they exist. */
  predicate WellFormedBox(box: ChoiceBox) {
    box.header.Some? && |box.spans| >= 2
  }

  predicate AllWellFormed(boxes: seq<ChoiceBox>) {
    forall k :: 0 <= k < |boxes| ==> WellFormedBox(boxes[k])
  }

  /** `f"{choice_header} {choice_text}"`. */
  function FormatChoice(box: ChoiceBox): string
    requires WellFormedBox(box)
  {
    Strip(box.header.value) + " " + Strip(box.spans[1])
  }

  /** The loop over the choice boxes, appending one entry per box. */
  function Choices(boxes: seq<ChoiceBox>): seq<string>
    requires AllWellFormed(boxes)
  {
    if |boxes| == 0 then []
    else [FormatChoice(boxes[0])] + Choices(boxes[1..])
  }

  /** One entry per choice box, in the boxes' order. */
  lemma {:induction false} ChoicesMeaning(boxes: seq<ChoiceBox>)
    requires AllWellFormed(boxes)
    ensures |Choices(boxes)| == |boxes|
    ensures forall k :: 0 <= k < |boxes| ==> Choices(boxes)[k] == FormatChoice(boxes[k])
    decreases |boxes|
  {
    if |boxes| > 0 {
      var rest := boxes[1..];
      assert AllWellFormed(rest) by {
        assert forall k :: 0 <= k < |rest| ==> rest[k] == boxes[k + 1];
      }
      var tail := Choices(rest);
      assert |tail| == |rest| && forall k :: 0 <= k < |rest| ==> tail[k] == FormatChoice(rest[k]) by {
        ChoicesMeaning(rest);
      }
      assert Choices(boxes) == [FormatChoice(boxes[0])] + tail;
      forall k | 1 <= k < |boxes| ensures Choices(boxes)[k] == FormatChoice(boxes[k]) {
        assert rest[k - 1] == boxes[k];
      }
    }
  }

  /** The text before the first space of `s`, and the text after it. */
  function SplitAtSpace(s: string): (string, string) {
    if |s| == 0 then ([], [])
    else if s[0] == ' ' then ([], s[1..])
    else
      var split := SplitAtSpace(s[1..]);
      ([s[0]] + split.0, split.1)
  }

  /** A choice entry gives back its header and its text: with a header free of
      spaces (as "A" in "A Paris"), splitting the entry at its first space
      recovers both. */
  lemma {:induction false} ChoiceSplitsBack(header: string, text: string)
    requires ' ' !in header
    ensures SplitAtSpace(header + " " + text) == (header, text)
    decreases |header|
  {
    if |header| == 0 {
      assert header + " " + text == [' '] + text;
    } else {
      assert (header + " " + text)[1..] == header[1..] + " " + text;
      assert ' ' !in header[1..] by {
        assert forall k :: 0 <= k < |header| - 1 ==> header[1..][k] == header[k + 1];
      }
      ChoiceSplitsBack(header[1..], text);
      assert [header[0]] + header[1..] == header;
    }
  }

  lemma ChoiceExample()
    ensures FormatChoice(ChoiceBox(Some("A"), ["A", "Paris"])) == "A Paris"
  {
    StripTrimmed("A");
    StripTrimmed("Paris");
  }

  // ---------------------------------------------------------------------
  // Answer and question id

  /** Answer and question id from the `h4` texts: both placeholders unless
      there are at least two; then the stripped first one, and the first match
      of the id pattern in the unstripped second one, if there is a match. */
  function AnswerAndId(headings: seq<string>): (r: (string, string))
    ensures |headings| < 2 ==> r == (NoAnswer, NoQuestionId)
    ensures |headings| >= 2 ==> r.0 == Strip(headings[0])
    ensures |headings| >= 2 ==>
      (r.1 == NoQuestionId <==> forall i: nat, j: nat :: !IdAt(headings[1], i, j))
    ensures |headings| >= 2 && r.1 != NoQuestionId ==>
      exists i: nat, j: nat :: FirstLongestIdAt(headings[1], i, j) && r.1 == headings[1][i..j]
  {
    if |headings| >= 2 then
      var found := SearchQuestionId(headings[1]);
      if found.Some? then
        MatchIsNotPlaceholder(headings[1], found.value);
        (Strip(headings[0]), found.value)
      else
        (Strip(headings[0]), NoQuestionId)
    else
      (NoAnswer, NoQuestionId)
  }

  /** A match starts with an ASCII digit, which the placeholder does not. */
  lemma MatchIsNotPlaceholder(s: string, m: string)
    requires exists i: nat, j: nat :: FirstLongestIdAt(s, i, j) && m == s[i..j]
    ensures m != NoQuestionId
  {
    var i: nat, j: nat :| FirstLongestIdAt(s, i, j) && m == s[i..j];
    assert m[0] == s[i];
    assert IsAsciiDigit(m[0]);
    assert !IsAsciiDigit(NoQuestionId[0]);
  }

  // ---------------------------------------------------------------------
  // Images

  /** `href and href.endswith('.jpg')`. */
  predicate IsJpgHref(href: Option<string>) {
    href.Some? && |href.value| > 0 && EndsWith(href.value, ".jpg")
  }

  /** `href.replace('thumb_', '')`: the full-size picture's URL. */
  function Unthumb(href: string): string {
    Replace(href, "thumb_", "")
  }

  /** Removing `thumb_` keeps the `.jpg` ending: no occurrence of `thumb_`
      can reach into it. */
  lemma UnthumbKeepsJpg(href: string)
    requires EndsWith(href, ".jpg")
    ensures EndsWith(Unthumb(href), ".jpg")
  {
    var stem := href[..|href| - 4];
    assert href == stem + ".jpg";
    ReplaceInertSuffix(stem, ".jpg", "thumb_", "");
  }

  lemma UnthumbExample()
    ensures Unthumb("thumb_fig1.jpg") == "fig1.jpg"
  {
    assert "thumb_fig1.jpg" == "thumb_" + "fig1.jpg";
    ReplaceInertSuffix("thumb_", "fig1.jpg", "thumb_", "");
    assert Replace("thumb_", "thumb_", "") == "";
  }

  /** The anchors of one image div, in order: the full-size URL of every
      `.jpg` link. */
  function AnchorImages(anchors: seq<Option<string>>): (r: seq<string>)
    ensures forall k :: 0 <= k < |r| ==> EndsWith(r[k], ".jpg")
  {
    if |anchors| == 0 then []
    else
      var head := anchors[0];
      var here := if IsJpgHref(head) then UnthumbKeepsJpg(head.value); [Unthumb(head.value)] else [];
      here + AnchorImages(anchors[1..])
  }

  /** The nested loop over the image divs and their anchors. */
  function ImageUrls(divs: seq<seq<Option<string>>>): (r: seq<string>)
    ensures forall k :: 0 <= k < |r| ==> EndsWith(r[k], ".jpg")
  {
    if |divs| == 0 then [] else AnchorImages(divs[0]) + ImageUrls(divs[1..])
  }

  /** All anchors of all image divs, in document order. */
  function Flatten(divs: seq<seq<Option<string>>>): seq<Option<string>> {
    if |divs| == 0 then [] else divs[0] + Flatten(divs[1..])
  }

  /** The `.jpg` hrefs among the anchors, in order. */
  function JpgHrefs(anchors: seq<Option<string>>): seq<string> {
    if |anchors| == 0 then []
    else (if IsJpgHref(anchors[0]) then [anchors[0].value] else []) + JpgHrefs(anchors[1..])
  }

  lemma {:induction false} JpgHrefsAppend(a: seq<Option<string>>, b: seq<Option<string>>)
    ensures JpgHrefs(a + b) == JpgHrefs(a) + JpgHrefs(b)
    decreases |a|
  {
    if |a| == 0 {
      assert a + b == b;
    } else {
      assert (a + b)[0] == a[0];
      assert (a + b)[1..] == a[1..] + b;
      JpgHrefsAppend(a[1..], b);
    }
  }

  lemma {:induction false} AnchorImagesMeaning(anchors: seq<Option<string>>)
    ensures var r := AnchorImages(anchors); var hrefs := JpgHrefs(anchors);
      |r| == |hrefs| && forall k :: 0 <= k < |r| ==> r[k] == Unthumb(hrefs[k])
    decreases |anchors|
  {
    if |anchors| > 0 {
      AnchorImagesMeaning(anchors[1..]);
    }
  }

  /** The image list is exactly the `.jpg` hrefs of all image divs, in
      document order, each with `thumb_` removed. */
  lemma {:induction false} ImageUrlsMeaning(divs: seq<seq<Option<string>>>)
    ensures var r := ImageUrls(divs); var hrefs := JpgHrefs(Flatten(divs));
      |r| == |hrefs| && forall k :: 0 <= k < |r| ==> r[k] == Unthumb(hrefs[k])
    decreases |divs|
  {
    if |divs| > 0 {
      ImageUrlsMeaning(divs[1..]);
      AnchorImagesMeaning(divs[0]);
      JpgHrefsAppend(divs[0], Flatten(divs[1..]));
    }
  }

  // ---------------------------------------------------------------------
  // The whole record

  /** `get_page_text(url, get_images)` on the page fetched from `url`. */
  function GetPageText(page: RecordPage, getImages: bool): (r: Record)
    requires AllWellFormed(page.choiceBoxes)
    ensures r.category == TextOr(page.category, NoCategory)
    ensures r.problem == TextOr(page.problem, NoProblem)
    ensures r.explanation == TextOr(page.explanation, NoExplanation)
    ensures r.choices == Choices(page.choiceBoxes)
    ensures (r.answer, r.questionId) == AnswerAndId(page.headings)
    ensures !getImages ==> r.images == []
    ensures getImages ==> r.images == ImageUrls(page.imageDivs)
    ensures forall k :: 0 <= k < |r.images| ==> EndsWith(r.images[k], ".jpg")
  {
    var (answer, questionId) := AnswerAndId(page.headings);
    Record(
      TextOr(page.category, NoCategory),
      TextOr(page.problem, NoProblem),
      Choices(page.choiceBoxes),
      answer,
      questionId,
      TextOr(page.explanation, NoExplanation),
      if getImages then ImageUrls(page.imageDivs) else [])
  }

  /** A present element gives its text without surrounding whitespace; a
      missing one gives the placeholder. */
  lemma TextOrMeaning(element: Option<string>, placeholder: string)
    ensures element.None? ==> TextOr(element, placeholder) == placeholder
    ensures element.Some? ==> exists a: nat :: PaddedAt(element.value, TextOr(element, placeholder), a)
    ensures element.Some? ==> Trimmed(TextOr(element, placeholder))
  {
    if element.Some? {
      var t := element.value;
      var r := TextOr(element, placeholder);
      assert r == Strip(t);
      StripShape(t);
      assert PaddedAt(t, r, |t| - |TrimStart(t)|);
    }
  }
}
