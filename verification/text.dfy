/** The string built-ins the scraper relies on, written out: `str.strip()`
    with no argument, `str.replace(old, new)`, `str.endswith(suffix)` and
    `str(n)` for a non-negative integer. Strings are sequences of Unicode
    scalar values, as Python 3 strings are. */
module Text {

  /** The characters Python's `str.isspace()` accepts, which are exactly the
      ones `str.strip()` removes when called without an argument. */
  predicate IsSpace(c: char) {
    || c == ' '
    || '\t' <= c <= '\r'
    || '\U{1c}' <= c <= '\U{1f}'
    || c == '\U{85}' || c == '\U{a0}' || c == '\U{1680}'
    || '\U{2000}' <= c <= '\U{200a}'
    || c == '\U{2028}' || c == '\U{2029}' || c == '\U{202f}' || c == '\U{205f}'
    || c == '\U{3000}'
  }

  predicate AllSpace(s: string) {
    forall k :: 0 <= k < |s| ==> IsSpace(s[k])
  }

  /** Neither end of `s` is whitespace. */
  predicate Trimmed(s: string) {
    |s| == 0 || (!IsSpace(s[0]) && !IsSpace(s[|s| - 1]))
  }

  /** `r` sits at offset `a` of `s` with only whitespace around it. */
  predicate PaddedAt(s: string, r: string, a: nat) {
    && a + |r| <= |s|
    && s[a..a + |r|] == r
    && (forall k :: 0 <= k < a ==> IsSpace(s[k]))
    && (forall k :: a + |r| <= k < |s| ==> IsSpace(s[k]))
  }

  /** `s` without its leading whitespace. */
  function TrimStart(s: string): (r: string)
    ensures |r| <= |s|
  {
    if |s| > 0 && IsSpace(s[0]) then TrimStart(s[1..]) else s
  }

  /** `s` without its trailing whitespace. */
  function TrimEnd(s: string): string {
    if |s| > 0 && IsSpace(s[|s| - 1]) then TrimEnd(s[..|s| - 1]) else s
  }

  /** `TrimStart` drops a whitespace prefix and stops at the first
      non-whitespace character. */
  lemma {:induction false} TrimStartShape(s: string)
    ensures var r := TrimStart(s);
      && |r| <= |s| && r == s[|s| - |r|..]
      && (forall k :: 0 <= k < |s| - |r| ==> IsSpace(s[k]))
      && (|r| == 0 || !IsSpace(r[0]))
    decreases |s|
  {
    if |s| > 0 && IsSpace(s[0]) {
      TrimStartShape(s[1..]);
      var r := TrimStart(s);
      assert s[1..][|s| - 1 - |r|..] == s[|s| - |r|..];
      forall k | 1 <= k < |s| - |r| ensures IsSpace(s[k]) {
        assert s[1..][k - 1] == s[k];
      }
    } else {
      assert s[0..] == s;
    }
  }

  /** `TrimEnd` drops a whitespace suffix and stops at the last
      non-whitespace character. */
  lemma {:induction false} TrimEndShape(s: string)
    ensures var r := TrimEnd(s);
      && |r| <= |s| && r == s[..|r|]
      && (forall k :: |r| <= k < |s| ==> IsSpace(s[k]))
      && (|r| == 0 || !IsSpace(r[|r| - 1]))
    decreases |s|
  {
    if |s| > 0 && IsSpace(s[|s| - 1]) {
      var s' := s[..|s| - 1];
      TrimEndShape(s');
      var r := TrimEnd(s);
      assert s'[..|r|] == s[..|r|];
      forall k | |r| <= k < |s| - 1 ensures IsSpace(s[k]) {
        assert s'[k] == s[k];
      }
    } else {
      assert s[..|s|] == s;
    }
  }

  /** `str.strip()`: the text with its surrounding whitespace removed. */
  function Strip(s: string): string {
    TrimEnd(TrimStart(s))
  }

  /** What `Strip` leaves: a text with no whitespace at either end, found in
      `s` with nothing but whitespace around it. */
  lemma StripShape(s: string)
    ensures Trimmed(Strip(s))
    ensures PaddedAt(s, Strip(s), |s| - |TrimStart(s)|)
  {
    TrimStartShape(s);
    TrimEndShape(TrimStart(s));
    StripPieces(s, TrimStart(s), TrimEnd(TrimStart(s)));
  }

  /** A whitespace prefix of `s` cut off, leaving `t`, and a whitespace
      suffix of `t` cut off, leaving `r`, leave `r` padded in `s`. */
  lemma StripPieces(s: string, t: string, r: string)
    requires |t| <= |s| && t == s[|s| - |t|..]
    requires forall k :: 0 <= k < |s| - |t| ==> IsSpace(s[k])
    requires |t| == 0 || !IsSpace(t[0])
    requires |r| <= |t| && r == t[..|r|]
    requires forall k :: |r| <= k < |t| ==> IsSpace(t[k])
    requires |r| == 0 || !IsSpace(r[|r| - 1])
    ensures Trimmed(r)
    ensures PaddedAt(s, r, |s| - |t|)
  {
    var a := |s| - |t|;
    forall k | a + |r| <= k < |s| ensures IsSpace(s[k]) {
      assert s[k] == t[k - a];
    }
    if |r| > 0 {
      assert r[0] == t[0];
    }
  }

  lemma {:induction false} TrimStartAfterSpaces(p: string, t: string)
    requires AllSpace(p)
    requires |t| == 0 || !IsSpace(t[0])
    ensures TrimStart(p + t) == t
    decreases |p|
  {
    if |p| > 0 {
      assert (p + t)[1..] == p[1..] + t;
      TrimStartAfterSpaces(p[1..], t);
    } else {
      assert p + t == t;
    }
  }

  lemma {:induction false} TrimEndBeforeSpaces(t: string, q: string)
    requires AllSpace(q)
    requires |t| == 0 || !IsSpace(t[|t| - 1])
    ensures TrimEnd(t + q) == t
    decreases |q|
  {
    if |q| > 0 {
      assert (t + q)[..|t + q| - 1] == t + q[..|q| - 1];
      TrimEndBeforeSpaces(t, q[..|q| - 1]);
    } else {
      assert t + q == t;
    }
  }

  /** Strip removes exactly the surrounding whitespace: whatever trimmed text
      is padded with whitespace on both sides, stripping gives it back. */
  lemma StripPadded(p: string, r: string, q: string)
    requires AllSpace(p) && AllSpace(q) && Trimmed(r)
    ensures Strip(p + r + q) == r
  {
    if |r| == 0 {
      assert p + r + q == p + q;
      assert AllSpace(p + q);
      TrimStartAfterSpaces(p + q, []);
      assert p + q + [] == p + q;
    } else {
      assert p + r + q == p + (r + q);
      TrimStartAfterSpaces(p, r + q);
      TrimEndBeforeSpaces(r, q);
    }
  }

  /** Stripping twice is stripping once. */
  lemma StripIdempotent(s: string)
    ensures Strip(Strip(s)) == Strip(s)
  {
    StripShape(s);
    StripTrimmed(Strip(s));
  }

  lemma StripTrimmed(r: string)
    requires Trimmed(r)
    ensures Strip(r) == r
  {
    assert [] + r + [] == r;
    StripPadded([], r, []);
  }

  /** Stripping adds no character: one absent from `s` is absent from the
      result. */
  lemma StripKeepsAbsent(s: string, c: char)
    requires c !in s
    ensures c !in Strip(s)
  {
    var a := |s| - |TrimStart(s)|;
    assert PaddedAt(s, Strip(s), a) by {
      StripShape(s);
    }
    PaddedKeepsAbsent(s, Strip(s), a, c);
  }

  lemma PaddedKeepsAbsent(s: string, r: string, a: nat, c: char)
    requires PaddedAt(s, r, a) && c !in s
    ensures c !in r
  {
    forall k | 0 <= k < |r| ensures r[k] != c {
      assert r[k] == s[a + k];
    }
  }

  /** `pat` occurs in `s` at offset `i`. */
  predicate OccursAt(s: string, pat: string, i: nat) {
    i + |pat| <= |s| && s[i..i + |pat|] == pat
  }

  /** `str.replace(pat, rep)`: every occurrence of `pat`, found scanning left to
      right without overlaps, is replaced by `rep`. The scraper only replaces
      non-empty patterns. */
  function Replace(s: string, pat: string, rep: string): string
    requires |pat| > 0
    decreases |s|
  {
    if pat <= s then rep + Replace(s[|pat|..], pat, rep)
    else if |s| == 0 then []
    else [s[0]] + Replace(s[1..], pat, rep)
  }

  lemma PrefixIsOccurrence(s: string, pat: string)
    ensures pat <= s <==> OccursAt(s, pat, 0)
  {
    if |pat| <= |s| {
      assert s[0..|pat|] == s[..|pat|];
    }
  }

  lemma OccurrenceShift(s: string, pat: string, i: nat)
    requires |s| > 0
    ensures OccursAt(s[1..], pat, i) ==> OccursAt(s, pat, i + 1)
  {
    if i + |pat| <= |s| - 1 {
      assert s[1..][i..i + |pat|] == s[i + 1..i + 1 + |pat|];
    }
  }

  /** A string in which the pattern never occurs is left unchanged. */
  lemma {:induction false} ReplaceAbsent(s: string, pat: string, rep: string)
    requires |pat| > 0
    requires forall i: nat :: !OccursAt(s, pat, i)
    ensures Replace(s, pat, rep) == s
    decreases |s|
  {
    PrefixIsOccurrence(s, pat);
    if |s| > 0 {
      forall i: nat ensures !OccursAt(s[1..], pat, i) {
        OccurrenceShift(s, pat, i);
      }
      ReplaceAbsent(s[1..], pat, rep);
      assert s == [s[0]] + s[1..];
    }
  }

  /** A character that does not occur is never replaced. */
  lemma ReplaceCharAbsent(s: string, c: char, rep: string)
    requires c !in s
    ensures Replace(s, [c], rep) == s
  {
    forall i: nat ensures !OccursAt(s, [c], i) {
      if i + 1 <= |s| {
        assert s[i..i + 1] == [s[i]];
      }
    }
    ReplaceAbsent(s, [c], rep);
  }

  /** Replacing a one-character pattern with a text that does not contain that
      character leaves no occurrence of it. */
  lemma {:induction false} ReplaceRemovesChar(s: string, c: char, rep: string)
    requires c !in rep
    ensures c !in Replace(s, [c], rep)
    decreases |s|
  {
    if [c] <= s {
      ReplaceRemovesChar(s[1..], c, rep);
    } else if |s| > 0 {
      assert s[0] != c by { assert [s[0]] == s[..1]; }
      ReplaceRemovesChar(s[1..], c, rep);
    }
  }

  /** A one-character replacement keeps the first character when it is not
      the replaced one. */
  lemma ReplaceKeepsFirst(s: string, c: char, rep: string)
    requires |s| > 0 && s[0] != c
    ensures var r := Replace(s, [c], rep); |r| > 0 && r[0] == s[0]
  {
  }

  /** A one-character replacement keeps the last character when it is not
      the replaced one. */
  lemma {:induction false} ReplaceKeepsLast(s: string, c: char, rep: string)
    requires |s| > 0 && s[|s| - 1] != c
    ensures var r := Replace(s, [c], rep); |r| > 0 && r[|r| - 1] == s[|s| - 1]
    decreases |s|
  {
    if |s| > 1 {
      ReplaceKeepsLast(s[1..], c, rep);
    }
  }

  /** Encoding one character as a text that starts with a character absent
      from the input is undone by replacing the encoding back. */
  lemma {:induction false} ReplaceRoundTrip(s: string, c: char, enc: string)
    requires |enc| > 0 && enc[0] !in s
    ensures Replace(Replace(s, [c], enc), enc, [c]) == s
    decreases |s|
  {
    if |s| > 0 {
      assert enc[0] !in s[1..] by {
        assert forall k :: 0 <= k < |s| - 1 ==> s[1..][k] == s[k + 1];
      }
      ReplaceRoundTrip(s[1..], c, enc);
      var tail := Replace(s[1..], [c], enc);
      if s[0] == c {
        assert [c] <= s;
        assert (enc + tail)[..|enc|] == enc;
        assert (enc + tail)[|enc|..] == tail;
      } else {
        assert !([c] <= s);
        assert ([s[0]] + tail)[1..] == tail;
        assert !(enc <= [s[0]] + tail) by {
          assert ([s[0]] + tail)[0] == s[0];
        }
        assert s == [s[0]] + s[1..];
      }
    }
  }

  /** Text that shares no character with the pattern is inert: no occurrence
      can reach into it, so it passes through the replacement unchanged. */
  lemma {:induction false} ReplaceInertSuffix(a: string, b: string, pat: string, rep: string)
    requires |pat| > 0
    requires forall k :: 0 <= k < |b| ==> b[k] !in pat
    ensures Replace(a + b, pat, rep) == Replace(a, pat, rep) + b
    decreases |a|
  {
    if |a| == 0 {
      assert a + b == b;
      assert forall i: nat :: !OccursAt(b, pat, i) by {
        InertHasNoOccurrence(b, pat);
      }
      ReplaceAbsent(b, pat, rep);
    } else {
      var ab := a + b;
      assert ab[0] == a[0] && ab[1..] == a[1..] + b;
      assert (pat <= ab) == (pat <= a) by {
        InertSuffixKeepsPrefixTest(a, b, pat);
      }
      if pat <= a {
        assert ab[|pat|..] == a[|pat|..] + b;
        ReplaceInertSuffix(a[|pat|..], b, pat, rep);
      } else {
        ReplaceInertSuffix(a[1..], b, pat, rep);
      }
    }
  }

  lemma InertHasNoOccurrence(b: string, pat: string)
    requires |pat| > 0
    requires forall k :: 0 <= k < |b| ==> b[k] !in pat
    ensures forall i: nat :: !OccursAt(b, pat, i)
  {
    forall i: nat ensures !OccursAt(b, pat, i) {
      if i + |pat| <= |b| {
        assert b[i..i + |pat|][0] == b[i];
      }
    }
  }

  /** Appending inert text does not change whether a non-empty text starts
      with the pattern. */
  lemma InertSuffixKeepsPrefixTest(a: string, b: string, pat: string)
    requires |pat| > 0 && |a| > 0
    requires forall k :: 0 <= k < |b| ==> b[k] !in pat
    ensures (pat <= a + b) == (pat <= a)
  {
    var ab := a + b;
    if |pat| <= |a| {
      assert ab[..|pat|] == a[..|pat|];
    } else if |pat| <= |ab| {
      assert ab[|a|] == b[0];
      assert pat[|a|] in pat;
    }
  }

  /** `str.endswith(suffix)`. */
  predicate EndsWith(s: string, suffix: string) {
    |suffix| <= |s| && s[|s| - |suffix|..] == suffix
  }

  predicate IsAsciiDigit(c: char) {
    '0' <= c <= '9'
  }

  function DigitChar(d: nat): (c: char)
    requires d < 10
    ensures IsAsciiDigit(c)
  {
    ('0' as int + d) as char
  }

  function DigitValue(c: char): nat
    requires IsAsciiDigit(c)
  {
    (c as int) - ('0' as int)
  }

  /** `str(n)` for a non-negative integer: its decimal numeral. */
  function NatToString(n: nat): (r: string)
    ensures |r| > 0
    ensures forall k :: 0 <= k < |r| ==> IsAsciiDigit(r[k])
    ensures |r| > 1 ==> r[0] != '0'
    decreases n
  {
    if n < 10 then [DigitChar(n)] else NatToString(n / 10) + [DigitChar(n % 10)]
  }

  /** Reading a numeral of decimal digits, the inverse of `NatToString`. */
  function ParseNat(s: string): nat
    requires forall k :: 0 <= k < |s| ==> IsAsciiDigit(s[k])
  {
    if |s| == 0 then 0 else ParseNat(s[..|s| - 1]) * 10 + DigitValue(s[|s| - 1])
  }

  /** The numeral `str(n)` reads back as `n`. */
  lemma {:induction false} NatToStringRoundTrip(n: nat)
    ensures ParseNat(NatToString(n)) == n
    decreases n
  {
    var r := NatToString(n);
    if n >= 10 {
      NatToStringRoundTrip(n / 10);
      assert r[..|r| - 1] == NatToString(n / 10);
    } else {
      assert r[..0] == [];
    }
  }
}
