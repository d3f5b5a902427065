/** The scraper's two regular expressions, written out as predicates on
    strings together with the left-to-right searches `re.search` performs.
    Both patterns only use ASCII digit and letter classes. */
module Patterns {
  import opened Optional
  import opened Text

  predicate IsAsciiLetter(c: char) {
    'A' <= c <= 'Z' || 'a' <= c <= 'z'
  }

  predicate IsNonZeroDigit(c: char) {
    '1' <= c <= '9'
  }

  /** Every character of `s[lo..hi]` is an ASCII digit. */
  predicate DigitsBetween(s: string, lo: nat, hi: nat)
    requires hi <= |s|
  {
    forall k :: lo <= k < hi ==> IsAsciiDigit(s[k])
  }

  /** The end of the run of ASCII digits that starts at `k`. */
  function DigitRunEnd(s: string, k: nat): (e: nat)
    requires k <= |s|
    ensures k <= e <= |s|
    decreases |s| - k
  {
    if k < |s| && IsAsciiDigit(s[k]) then DigitRunEnd(s, k + 1) else k
  }

  /** The run from `k` to `DigitRunEnd(s, k)` is all digits and cannot be
      extended. */
  lemma {:induction false} DigitRunEndShape(s: string, k: nat)
    requires k <= |s|
    ensures DigitsBetween(s, k, DigitRunEnd(s, k))
    ensures DigitRunEnd(s, k) == |s| || !IsAsciiDigit(s[DigitRunEnd(s, k)])
    decreases |s| - k
  {
    if k < |s| && IsAsciiDigit(s[k]) {
      DigitRunEndShape(s, k + 1);
    }
  }

  /** A digit run ending at a non-digit ends where `DigitRunEnd` says. */
  lemma {:induction false} RunEndUnique(s: string, k: nat, e: nat)
    requires k <= e <= |s|
    requires DigitsBetween(s, k, e)
    requires e == |s| || !IsAsciiDigit(s[e])
    ensures DigitRunEnd(s, k) == e
    decreases e - k
  {
    if k < e {
      assert IsAsciiDigit(s[k]);
      RunEndUnique(s, k + 1, e);
    }
  }

  // ---------------------------------------------------------------------
  // Record links: /([1-9][0-9]{2,})[A-Za-z]\d{2}

  /** `s[i..j + 3]` matches `/[1-9][0-9]{2,}[A-Za-z]\d{2}`: a slash at `i`, a
      run `s[i + 1..j]` of at least three digits whose first is not 0, a
      letter at `j`, then two digits. */
  predicate RecordPathAt(s: string, i: nat, j: nat) {
    && i + 4 <= j && j + 3 <= |s|
    && s[i] == '/' && IsNonZeroDigit(s[i + 1])
    && DigitsBetween(s, i + 2, j)
    && IsAsciiLetter(s[j]) && IsAsciiDigit(s[j + 1]) && IsAsciiDigit(s[j + 2])
  }

  /** The check a regex engine makes at one start position: since a letter is
      not a digit, `[0-9]{2,}` can only stop at the end of the digit run. */
  predicate RecordPathStartsAt(s: string, i: nat) {
    && i + 2 <= |s|
    && s[i] == '/' && IsNonZeroDigit(s[i + 1])
    && var j := DigitRunEnd(s, i + 2);
      i + 4 <= j && j + 3 <= |s| && IsAsciiLetter(s[j]) && IsAsciiDigit(s[j + 1]) && IsAsciiDigit(s[j + 2])
  }

  lemma RecordPathStartsAtMeaning(s: string, i: nat)
    ensures RecordPathStartsAt(s, i) <==> exists j: nat :: RecordPathAt(s, i, j)
  {
    if RecordPathStartsAt(s, i) {
      DigitRunEndShape(s, i + 2);
      assert RecordPathAt(s, i, DigitRunEnd(s, i + 2));
    }
    forall j: nat | RecordPathAt(s, i, j) ensures RecordPathStartsAt(s, i) {
      RunEndUnique(s, i + 2, j);
    }
  }

  /** Scans start positions from `from` onwards for a record-path match. */
  function SearchRecordPath(s: string, from: nat): bool
    decreases |s| - from
  {
    if from >= |s| then false
    else RecordPathStartsAt(s, from) || SearchRecordPath(s, from + 1)
  }

  /** The scan finds a match exactly when one starts at or after `from`. */
  lemma {:induction false} SearchRecordPathMeaning(s: string, from: nat)
    ensures SearchRecordPath(s, from) <==> exists i: nat, j: nat :: from <= i && RecordPathAt(s, i, j)
    decreases |s| - from
  {
    if from < |s| {
      RecordPathStartsAtMeaning(s, from);
      SearchRecordPathMeaning(s, from + 1);
      assert forall i: nat, j: nat :: from <= i && RecordPathAt(s, i, j) ==> i == from || from + 1 <= i;
    }
  }

  /** `pattern.search(link)` succeeds. */
  predicate IsRecordLink(link: string) {
    SearchRecordPath(link, 0)
  }

  /** A link passes the filter exactly when some part of it matches
      `/[1-9][0-9]{2,}[A-Za-z]\d{2}`. */
  lemma IsRecordLinkMeaning(link: string)
    ensures IsRecordLink(link) <==> exists i: nat, j: nat :: RecordPathAt(link, i, j)
  {
    SearchRecordPathMeaning(link, 0);
  }

  // ---------------------------------------------------------------------
  // Question ids: ([0-9]{3}[A-Za-z][0-9]+)

  /** `s[i..j]` matches `[0-9]{3}[A-Za-z][0-9]+`. */
  predicate IdAt(s: string, i: nat, j: nat) {
    && i + 5 <= j <= |s|
    && DigitsBetween(s, i, i + 3)
    && IsAsciiLetter(s[i + 3])
    && DigitsBetween(s, i + 4, j)
  }

  /** The match `re.search` reports: it starts as far left as any match
      does, and its `[0-9]+` tail is as long as the digits allow. */
  ghost predicate FirstLongestIdAt(s: string, i: nat, j: nat) {
    && IdAt(s, i, j)
    && (j == |s| || !IsAsciiDigit(s[j]))
    && forall i': nat, j': nat :: i' < i ==> !IdAt(s, i', j')
  }

  /** Some match of the question-id pattern starts at `i`. */
  predicate IdStartsAt(s: string, i: nat) {
    i + 5 <= |s| && DigitsBetween(s, i, i + 3) && IsAsciiLetter(s[i + 3]) && IsAsciiDigit(s[i + 4])
  }

  lemma IdStartsAtMeaning(s: string, i: nat)
    ensures IdStartsAt(s, i) <==> exists j: nat :: IdAt(s, i, j)
  {
    if IdStartsAt(s, i) {
      assert IdAt(s, i, i + 5);
    }
  }

  /** The leftmost start position at or after `from` of a question-id match. */
  function FirstIdStart(s: string, from: nat): (r: Option<nat>)
    ensures r.Some? ==> from <= r.value && IdStartsAt(s, r.value)
    ensures r.Some? ==> forall i :: from <= i < r.value ==> !IdStartsAt(s, i)
    ensures r.None? ==> forall i: nat :: from <= i ==> !IdStartsAt(s, i)
    decreases |s| - from
  {
    if from + 5 > |s| then None
    else if IdStartsAt(s, from) then Some(from)
    else FirstIdStart(s, from + 1)
  }

  /** `re.search(r'([0-9]{3}[A-Za-z][0-9]+)', s)` and its group 1: the
      leftmost, longest match, or None when the pattern occurs nowhere. */
  function SearchQuestionId(s: string): (r: Option<string>)
    ensures r.None? <==> forall i: nat, j: nat :: !IdAt(s, i, j)
    ensures r.Some? ==> exists i: nat, j: nat :: FirstLongestIdAt(s, i, j) && r.value == s[i..j]
  {
    match FirstIdStart(s, 0)
    case None =>
      assert forall i: nat, j: nat :: !IdAt(s, i, j) by {
        forall i: nat, j: nat ensures !IdAt(s, i, j) {
          IdStartsAtMeaning(s, i);
        }
      }
      None
    case Some(i) =>
      var j := DigitRunEnd(s, i + 4);
      assert FirstLongestIdAt(s, i, j) by {
        DigitRunEndShape(s, i + 4);
        forall i': nat, j': nat | i' < i ensures !IdAt(s, i', j') {
          IdStartsAtMeaning(s, i');
        }
      }
      Some(s[i..j])
  }

  /** At most one match satisfies the leftmost-longest rule, so the contract
      of `SearchQuestionId` pins its result down completely. */
  lemma FirstLongestIdUnique(s: string, i: nat, j: nat, i': nat, j': nat)
    requires FirstLongestIdAt(s, i, j) && FirstLongestIdAt(s, i', j')
    ensures i == i' && j == j'
  {
    assert !(i < i') && !(i' < i);
    RunEndUnique(s, i + 4, j);
    RunEndUnique(s, i + 4, j');
  }
}
