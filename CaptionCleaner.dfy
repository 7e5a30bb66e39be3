/**
  The caption cleaner of the video analyzer (`clean_subtitle_text`): a fixed chain of
  seven pattern substitutions over the text of a WebVTT caption file, followed by a
  trim of both ends.

  Every pattern is modelled by a hand-written matcher that says how long a match
  starting at a given position is (0 for no match), and `Sub` is the left-to-right,
  non-overlapping scan that a regular-expression substitution performs with it.
  None of the seven patterns can match the empty string, so a zero length is never
  a real match.
*/
module CaptionCleaner {

  /** Whitespace as Python sees it for `str` (the `\s` class and `str.strip`):
      tab to carriage return, the information separators U+001C to U+001F, space,
      and the Unicode space, line and paragraph separators. */
  predicate IsSpace(c: char) {
    ('\t' <= c && c <= '\r') || ('\U{1C}' <= c && c <= ' ') || c == '\U{85}' || c == '\U{A0}'
    || c == '\U{1680}' || ('\U{2000}' <= c && c <= '\U{200A}') || c == '\U{2028}' || c == '\U{2029}'
    || c == '\U{202F}' || c == '\U{205F}' || c == '\U{3000}'
  }

  /** Digits are the ASCII digits only. */
  predicate IsDigit(c: char) {
    '0' <= c && c <= '9'
  }

  /** The musical-note character that marks lyrics in captions. */
  const Note: char := '\U{266A}'

  /** The patterns of the cleaner. The two span patterns of the cleaner are
      Delimited ones: Bracket and Lyric. */
  datatype Pattern =
    | Header     // "WEBVTT" at a line start, then everything up to the first blank line
    | CueTiming  // a cue range "hh:mm:ss.ttt --> hh:mm:ss.ttt", then the rest of its line
    | Tag        // an angle-bracket tag with at least one character inside
    | Delimited(open: char, close: char)  // open, then the nearest close on the same line
    | Newlines   // a run of line feeds
    | Spaces     // a run of whitespace

  /** A square-bracket span within one line. */
  const Bracket: Pattern := Delimited('[', ']')

  /** A span between two note characters within one line. */
  const Lyric: Pattern := Delimited(Note, Note)

  predicate AtLineStart(s: seq<char>, i: nat)
    requires i <= |s|
  {
    i == 0 || s[i - 1] == '\n'
  }

  predicate LiteralAt(s: seq<char>, i: nat, w: seq<char>) {
    i + |w| <= |s| && s[i..i + |w|] == w
  }

  predicate BlankLineAt(s: seq<char>, k: nat) {
    k + 1 < |s| && s[k] == '\n' && s[k + 1] == '\n'
  }

  /** The word that opens a WebVTT header. */
  const HeaderWord: string := "WEBVTT"

  /** "hh:mm:ss.ttt" in ASCII digits at position i. */
  predicate TimestampAt(s: seq<char>, i: nat) {
    i + 12 <= |s|
    && IsDigit(s[i]) && IsDigit(s[i + 1]) && s[i + 2] == ':'
    && IsDigit(s[i + 3]) && IsDigit(s[i + 4]) && s[i + 5] == ':'
    && IsDigit(s[i + 6]) && IsDigit(s[i + 7]) && s[i + 8] == '.'
    && IsDigit(s[i + 9]) && IsDigit(s[i + 10]) && IsDigit(s[i + 11])
  }

  /** "hh:mm:ss.ttt --> hh:mm:ss.ttt" at position i: 29 characters. */
  predicate CueRangeAt(s: seq<char>, i: nat) {
    TimestampAt(s, i) && LiteralAt(s, i + 12, " --> ") && TimestampAt(s, i + 17)
  }

  /** The first position at or after j that holds a or b, or |s| when there is none. */
  function FirstOf(s: seq<char>, j: nat, a: char, b: char): (k: nat)
    requires j <= |s|
    ensures j <= k <= |s|
    ensures k < |s| ==> s[k] == a || s[k] == b
    ensures forall m :: j <= m < k ==> s[m] != a && s[m] != b
    decreases |s| - j
  {
    if j == |s| || s[j] == a || s[j] == b then j else FirstOf(s, j + 1, a, b)
  }

  /** The first position at or after j where a blank line "\n\n" starts, or |s|. */
  function FirstBlankLine(s: seq<char>, j: nat): (k: nat)
    requires j <= |s|
    ensures j <= k <= |s|
    ensures k < |s| ==> BlankLineAt(s, k)
    ensures forall m :: j <= m < k ==> !BlankLineAt(s, m)
    decreases |s| - j
  {
    if j == |s| || BlankLineAt(s, j) then j else FirstBlankLine(s, j + 1)
  }

  /** The header pattern: at a line start (of the whole text), "WEBVTT" and then the
      shortest stretch, line feeds included, that ends with a blank line. */
  function MatchHeader(s: seq<char>, i: nat): (n: nat)
    requires i < |s|
    ensures i + n <= |s|
  {
    if AtLineStart(s, i) && LiteralAt(s, i, HeaderWord) then
      var k := FirstBlankLine(s, i + |HeaderWord|);
      if k < |s| then k + 2 - i else 0
    else 0
  }

  lemma HeaderMatch(s: seq<char>, i: nat)
    requires i < |s|
    ensures var n := MatchHeader(s, i);
      && (n > 0 <==> AtLineStart(s, i) && LiteralAt(s, i, HeaderWord) && exists k :: i + |HeaderWord| <= k && BlankLineAt(s, k))
      && (n > 0 ==> n >= 8 && LiteralAt(s, i, HeaderWord) && BlankLineAt(s, i + n - 2))
      && (n > 0 ==> forall k :: i + |HeaderWord| <= k < i + n - 2 ==> !BlankLineAt(s, k))
  {
  }

  /** The cue-timing pattern: a cue range, then the shortest stretch without a line
      feed that is followed by one; the line feed is part of the match. */
  function MatchCueTiming(s: seq<char>, i: nat): (n: nat)
    requires i < |s|
    ensures i + n <= |s|
  {
    if CueRangeAt(s, i) then
      var k := FirstOf(s, i + 29, '\n', '\n');
      if k < |s| then k + 1 - i else 0
    else 0
  }

  lemma CueTimingMatch(s: seq<char>, i: nat)
    requires i < |s|
    ensures var n := MatchCueTiming(s, i);
      && (n > 0 <==> CueRangeAt(s, i) && exists k :: i + 29 <= k < |s| && s[k] == '\n')
      && (n > 0 ==> n >= 30 && s[i + n - 1] == '\n')
      && (n > 0 ==> forall k :: i + 29 <= k < i + n - 1 ==> s[k] != '\n')
  {
  }

  /** The tag pattern: '<', one or more characters other than '>' (line feeds
      included), then '>'. */
  function MatchTag(s: seq<char>, i: nat): (n: nat)
    requires i < |s|
    ensures i + n <= |s|
  {
    if s[i] == '<' && i + 1 < |s| && s[i + 1] != '>' then
      var k := FirstOf(s, i + 1, '>', '>');
      if k < |s| then k + 1 - i else 0
    else 0
  }

  lemma TagMatch(s: seq<char>, i: nat)
    requires i < |s|
    ensures var n := MatchTag(s, i);
      && (n > 0 <==> s[i] == '<' && i + 1 < |s| && s[i + 1] != '>' && exists k :: i + 1 < k < |s| && s[k] == '>')
      && (n > 0 ==> n >= 3 && s[i + n - 1] == '>')
      && (n > 0 ==> forall m :: i < m < i + n - 1 ==> s[m] != '>')
  {
  }

  /** A delimited span: the opener, then the shortest stretch without a line feed
      that is followed by the closer. */
  function MatchDelimited(s: seq<char>, i: nat, open: char, close: char): (n: nat)
    requires i < |s|
    ensures i + n <= |s|
  {
    if s[i] == open then
      var k := FirstOf(s, i + 1, close, '\n');
      if k < |s| && s[k] == close then k + 1 - i else 0
    else 0
  }

  lemma DelimitedMatch(s: seq<char>, i: nat, open: char, close: char)
    requires i < |s|
    requires close != '\n'
    ensures var n := MatchDelimited(s, i, open, close);
      && (n > 0 ==> n >= 2 && s[i] == open && s[i + n - 1] == close)
      && (n > 0 ==> forall m :: i < m < i + n - 1 ==> s[m] != close && s[m] != '\n')
      && (n == 0 && s[i] == open ==>
            forall k :: i < k < |s| && s[k] == close ==> exists m :: i < m < k && s[m] == '\n')
  {
  }

  /** The longest run of line feeds starting at i. */
  function MatchNewlines(s: seq<char>, i: nat): (n: nat)
    requires i <= |s|
    ensures i + n <= |s|
    decreases |s| - i
  {
    if i < |s| && s[i] == '\n' then 1 + MatchNewlines(s, i + 1) else 0
  }

  lemma {:induction false} NewlinesMatch(s: seq<char>, i: nat)
    requires i <= |s|
    ensures forall m :: i <= m < i + MatchNewlines(s, i) ==> s[m] == '\n'
    ensures i + MatchNewlines(s, i) < |s| ==> s[i + MatchNewlines(s, i)] != '\n'
    decreases |s| - i
  {
    if i < |s| && s[i] == '\n' {
      NewlinesMatch(s, i + 1);
    }
  }

  /** The longest run of whitespace starting at i. */
  function MatchSpaces(s: seq<char>, i: nat): (n: nat)
    requires i <= |s|
    ensures i + n <= |s|
    decreases |s| - i
  {
    if i < |s| && IsSpace(s[i]) then 1 + MatchSpaces(s, i + 1) else 0
  }

  lemma {:induction false} SpacesMatch(s: seq<char>, i: nat)
    requires i <= |s|
    ensures forall m :: i <= m < i + MatchSpaces(s, i) ==> IsSpace(s[m])
    ensures i + MatchSpaces(s, i) < |s| ==> !IsSpace(s[i + MatchSpaces(s, i)])
    decreases |s| - i
  {
    if i < |s| && IsSpace(s[i]) {
      SpacesMatch(s, i + 1);
    }
  }

  /** The length of the match of p at position i of s; 0 when p does not match there. */
  function MatchAt(p: Pattern, s: seq<char>, i: nat): (n: nat)
    requires i < |s|
    ensures i + n <= |s|
  {
    match p
    case Header => MatchHeader(s, i)
    case CueTiming => MatchCueTiming(s, i)
    case Tag => MatchTag(s, i)
    case Delimited(open, close) => MatchDelimited(s, i, open, close)
    case Newlines => MatchNewlines(s, i)
    case Spaces => MatchSpaces(s, i)
  }

  /** Substitution of r for every match of p in s[i..]: scanning left to right, a
      match is replaced and scanning resumes after it; elsewhere one character is
      copied and scanning resumes at the next one. */
  function Sub(p: Pattern, r: seq<char>, s: seq<char>, i: nat): (t: seq<char>)
    requires i <= |s|
    ensures |r| <= 1 ==> |t| <= |s| - i
    decreases |s| - i
  {
    if i == |s| then []
    else
      var n := MatchAt(p, s, i);
      if n > 0 then r + Sub(p, r, s, i + n) else [s[i]] + Sub(p, r, s, i + 1)
  }

  /** Where p matches nowhere in s[i..], the substitution copies s[i..]. */
  lemma {:induction false} SubWithoutMatches(p: Pattern, r: seq<char>, s: seq<char>, i: nat)
    requires i <= |s|
    requires forall k :: i <= k < |s| ==> MatchAt(p, s, k) == 0
    ensures Sub(p, r, s, i) == s[i..]
    decreases |s| - i
  {
    if i < |s| {
      SubWithoutMatches(p, r, s, i + 1);
      assert s[i..] == [s[i]] + s[i + 1..];
    }
  }

  /** The characters at which a match of p can start. */
  predicate CanStart(p: Pattern, c: char) {
    match p
    case Header => c == 'W'
    case CueTiming => IsDigit(c)
    case Tag => c == '<'
    case Delimited(open, _) => c == open
    case Newlines => c == '\n'
    case Spaces => IsSpace(c)
  }

  lemma MatchStartsRight(p: Pattern, s: seq<char>, k: nat)
    requires k < |s|
    ensures MatchAt(p, s, k) > 0 ==> CanStart(p, s[k])
  {
    if p.Header? && MatchAt(p, s, k) > 0 {
      assert s[k] == s[k..k + |HeaderWord|][0];
    }
  }

  lemma SubCopiesOne(p: Pattern, r: seq<char>, s: seq<char>, i: nat)
    requires i < |s| && !CanStart(p, s[i])
    ensures Sub(p, r, s, i) == [s[i]] + Sub(p, r, s, i + 1)
  {
    MatchStartsRight(p, s, i);
  }

  lemma ConsSlice(s: seq<char>, i: nat, j: nat, u: seq<char>)
    requires i < j <= |s|
    ensures [s[i]] + (s[i + 1..j] + u) == s[i..j] + u
  {
    assert s[i..j] == [s[i]] + s[i + 1..j];
  }

  /** A stretch in which p cannot start is copied unchanged, and the scan resumes
      right after it. */
  lemma {:induction false} SubCopiesSpan(p: Pattern, r: seq<char>, s: seq<char>, i: nat, j: nat)
    requires i <= j <= |s|
    requires forall k :: i <= k < j ==> !CanStart(p, s[k])
    ensures Sub(p, r, s, i) == s[i..j] + Sub(p, r, s, j)
    decreases j - i
  {
    if i < j {
      SubCopiesOne(p, r, s, i);
      SubCopiesSpan(p, r, s, i + 1, j);
      ConsSlice(s, i, j, Sub(p, r, s, j));
    }
  }

  /** A stretch in which no match of p starts is copied unchanged, and the scan
      resumes right after it. */
  lemma {:induction false} SubNoMatchRange(p: Pattern, r: seq<char>, s: seq<char>, i: nat, j: nat)
    requires i <= j <= |s|
    requires forall k :: i <= k < j ==> MatchAt(p, s, k) == 0
    ensures Sub(p, r, s, i) == s[i..j] + Sub(p, r, s, j)
    decreases j - i
  {
    if i < j {
      SubNoMatchRange(p, r, s, i + 1, j);
      ConsSlice(s, i, j, Sub(p, r, s, j));
    }
  }

  /** No character of w can start a match of p. */
  predicate Inert(p: Pattern, w: seq<char>) {
    forall k :: 0 <= k < |w| ==> !CanStart(p, w[k])
  }

  lemma InertAppend(p: Pattern, u: seq<char>, v: seq<char>)
    requires Inert(p, u) && Inert(p, v)
    ensures Inert(p, u + v)
  {
  }

  /** An inert piece w found at position i of s is copied as it is. */
  lemma SubCopiesPiece(p: Pattern, r: seq<char>, s: seq<char>, i: nat, w: seq<char>)
    requires i + |w| <= |s|
    requires forall k :: 0 <= k < |w| ==> s[i + k] == w[k]
    requires Inert(p, w)
    ensures Sub(p, r, s, i) == w + Sub(p, r, s, i + |w|)
  {
    assert forall k :: i <= k < i + |w| ==> s[k] == w[k - i];
    SubCopiesSpan(p, r, s, i, i + |w|);
    assert s[i..i + |w|] == w;
  }

  /** An inert piece that ends s is the whole rest of the substitution. */
  lemma SubCopiesRest(p: Pattern, r: seq<char>, s: seq<char>, j: nat, rest: seq<char>)
    requires j + |rest| == |s|
    requires forall k :: 0 <= k < |rest| ==> s[j + k] == rest[k]
    requires Inert(p, rest)
    ensures Sub(p, r, s, j) == rest
  {
    SubCopiesPiece(p, r, s, j, rest);
  }

  /** A match of length n at position i is replaced and the scan goes on after it. */
  lemma SubAtMatch(p: Pattern, r: seq<char>, s: seq<char>, i: nat, n: nat)
    requires i < |s| && MatchAt(p, s, i) == n > 0
    ensures Sub(p, r, s, i) == r + Sub(p, r, s, i + n)
  {
  }

  /** A match that is followed only by an inert rest. */
  lemma SubMatchThenCopy(p: Pattern, r: seq<char>, s: seq<char>, i: nat, n: nat, rest: seq<char>)
    requires i < |s| && MatchAt(p, s, i) == n > 0
    requires i + n + |rest| == |s|
    requires forall k :: 0 <= k < |rest| ==> s[i + n + k] == rest[k]
    requires Inert(p, rest)
    ensures Sub(p, r, s, i) == r + rest
  {
    SubAtMatch(p, r, s, i, n);
    SubCopiesRest(p, r, s, i + n, rest);
  }

  /** FirstOf finds the first hit k when nothing before it is a hit. */
  lemma FirstOfAt(s: seq<char>, j: nat, k: nat, a: char, b: char)
    requires j <= k < |s| && (s[k] == a || s[k] == b)
    requires forall q :: j <= q < k ==> s[q] != a && s[q] != b
    ensures FirstOf(s, j, a, b) == k
  {
  }

  /** A substitution never introduces a character that is neither in the
      replacement nor in the scanned text. */
  lemma {:induction false} SubAvoids(p: Pattern, r: seq<char>, s: seq<char>, i: nat, c: char)
    requires i <= |s|
    requires forall k :: 0 <= k < |r| ==> r[k] != c
    requires forall q :: i <= q < |s| ==> s[q] != c
    ensures forall k :: 0 <= k < |Sub(p, r, s, i)| ==> Sub(p, r, s, i)[k] != c
    decreases |s| - i
  {
    if i < |s| {
      var n := MatchAt(p, s, i);
      var t := Sub(p, r, s, i);
      if n > 0 {
        var u := Sub(p, r, s, i + n);
        SubAvoids(p, r, s, i + n, c);
        assert t == r + u;
      } else {
        var u := Sub(p, r, s, i + 1);
        SubAvoids(p, r, s, i + 1, c);
        assert t == [s[i]] + u;
      }
    }
  }

  // ----- Properties of the header step -----

  /** No header block can start at position a: a "WEBVTT" at a line start is never
      followed by a blank line. */
  ghost predicate HeaderFreeAt(t: seq<char>, a: nat)
    requires a < |t|
  {
    AtLineStart(t, a) && LiteralAt(t, a, HeaderWord) ==>
      forall k :: a + |HeaderWord| <= k ==> !BlankLineAt(t, k)
  }

  /** HeaderFreeAt is exactly the absence of a header match. */
  lemma HeaderFreeIsNoMatch(t: seq<char>, a: nat)
    requires a < |t|
    ensures HeaderFreeAt(t, a) <==> MatchHeader(t, a) == 0
  {
    HeaderMatch(t, a);
  }

  /** Putting c in front of u shifts every position past the first by one: a header
      can start there only at a line start, and then only where it could in u. */
  lemma HeaderFreeShift(c: char, u: seq<char>, a: nat)
    requires 0 < a < |[c] + u|
    requires a > 1 ==> HeaderFreeAt(u, a - 1)
    requires a == 1 && c == '\n' ==> HeaderFreeAt(u, 0)
    ensures HeaderFreeAt([c] + u, a)
  {
    var t := [c] + u;
    if AtLineStart(t, a) && LiteralAt(t, a, HeaderWord) {
      assert t[a - 1] == '\n';
      assert a > 1 ==> u[a - 2] == t[a - 1];
      assert t[a..a + |HeaderWord|] == u[a - 1..a - 1 + |HeaderWord|];
      assert AtLineStart(u, a - 1) && LiteralAt(u, a - 1, HeaderWord);
      forall k | a + |HeaderWord| <= k
        ensures !BlankLineAt(t, k)
      {
        assert !BlankLineAt(u, k - 1);
      }
    }
  }

  /** Where the scan finds no header, the rest of that line is copied: a header
      could only start after a line feed. */
  lemma HeaderLineCopied(s: seq<char>, i: nat) returns (j: nat)
    requires i < |s| && MatchAt(Header, s, i) == 0
    ensures i < j <= |s|
    ensures j < |s| ==> s[j - 1] == '\n'
    ensures forall k :: i <= k < j - 1 ==> s[k] != '\n'
    ensures Sub(Header, "", s, i) == s[i..j] + Sub(Header, "", s, j)
  {
    var f := FirstOf(s, i, '\n', '\n');
    j := if f < |s| then f + 1 else |s|;
    forall k | i <= k < j
      ensures MatchAt(Header, s, k) == 0
    {
      if k > i {
        assert s[k - 1] != '\n';
      }
    }
    SubNoMatchRange(Header, "", s, i, j);
  }

  /** A "WEBVTT" at the front of the output where the scan found no header was
      already in the text there. */
  lemma HeaderWordCopied(s: seq<char>, i: nat)
    requires i < |s| && MatchAt(Header, s, i) == 0
    requires LiteralAt(Sub(Header, "", s, i), 0, HeaderWord)
    ensures LiteralAt(s, i, HeaderWord)
  {
    var u := Sub(Header, "", s, i);
    var j := HeaderLineCopied(s, i);
    assert u[..j - i] == s[i..j];
    assert forall q :: 0 <= q < |HeaderWord| ==> HeaderWord[q] != '\n';
    assert u[..|HeaderWord|] == HeaderWord;
    assert forall q :: 0 <= q < |HeaderWord| ==> u[q] != '\n';
    if j < |s| {
      assert u[j - i - 1] == '\n';
    } else {
      assert |u| == j - i;
    }
    assert j - i >= |HeaderWord|;
    assert u[..|HeaderWord|] == u[..j - i][..|HeaderWord|];
    assert u[..|HeaderWord|] == s[i..i + |HeaderWord|];
  }

  /** Where the scan finds no header at a line start, none is left at the front of
      the output. */
  lemma HeaderFreeAtScanStart(s: seq<char>, i: nat)
    requires i < |s| && AtLineStart(s, i) && MatchAt(Header, s, i) == 0
    requires |Sub(Header, "", s, i)| > 0
    ensures HeaderFreeAt(Sub(Header, "", s, i), 0)
  {
    var u := Sub(Header, "", s, i);
    if LiteralAt(u, 0, HeaderWord) {
      HeaderWordCopied(s, i);
      HeaderMatch(s, i);
      forall k | i <= k < |s|
        ensures MatchAt(Header, s, k) == 0
      {
        HeaderMatch(s, k);
      }
      SubNoMatchRange(Header, "", s, i, |s|);
      assert u == s[i..];
      forall k | |HeaderWord| <= k
        ensures !BlankLineAt(u, k)
      {
        if BlankLineAt(u, k) {
          assert BlankLineAt(s, i + k);
        }
      }
    }
  }

  /** After the header step no header block is left. The front of the output only
      counts as a line start when the scan began at one. */
  lemma {:induction false} HeadersRemoved(s: seq<char>, i: nat)
    requires i <= |s|
    ensures forall a :: 0 < a < |Sub(Header, "", s, i)| ==> HeaderFreeAt(Sub(Header, "", s, i), a)
    ensures AtLineStart(s, i) && |Sub(Header, "", s, i)| > 0 ==> HeaderFreeAt(Sub(Header, "", s, i), 0)
    decreases |s| - i
  {
    if i < |s| {
      var n := MatchAt(Header, s, i);
      if n > 0 {
        HeaderMatch(s, i);
        assert s[i + n - 1] == '\n';
        HeadersRemoved(s, i + n);
        assert Sub(Header, "", s, i) == Sub(Header, "", s, i + n);
      } else {
        HeadersRemoved(s, i + 1);
        var u := Sub(Header, "", s, i + 1);
        assert Sub(Header, "", s, i) == [s[i]] + u;
        forall a | 0 < a < |[s[i]] + u|
          ensures HeaderFreeAt([s[i]] + u, a)
        {
          HeaderFreeShift(s[i], u, a);
        }
        if AtLineStart(s, i) {
          HeaderFreeAtScanStart(s, i);
        }
      }
    }
  }

  // ----- Properties of the tag step -----

  /** After the tag step, every '<' is either directly followed by '>' or not
      followed by any '>' at all. */
  ghost predicate NoTagLeft(t: seq<char>) {
    forall a :: 0 <= a < |t| && t[a] == '<' ==> UnclosableAt(t, a)
  }

  /** The '<' at position a cannot start a tag: '>' follows at once, or never. */
  ghost predicate UnclosableAt(t: seq<char>, a: nat)
    requires a < |t|
  {
    (a + 1 < |t| && t[a + 1] == '>') || (forall b :: a < b < |t| ==> t[b] != '>')
  }

  lemma {:induction false} TagsRemoved(s: seq<char>, i: nat)
    requires i <= |s|
    ensures NoTagLeft(Sub(Tag, "", s, i))
    decreases |s| - i
  {
    if i < |s| {
      var n := MatchAt(Tag, s, i);
      if n > 0 {
        TagsRemoved(s, i + n);
      } else {
        TagsRemoved(s, i + 1);
        var t := Sub(Tag, "", s, i);
        var u := Sub(Tag, "", s, i + 1);
        assert t == [s[i]] + u;
        TagMatch(s, i);
        forall a | 0 <= a < |t| && t[a] == '<'
          ensures UnclosableAt(t, a)
        {
          if a == 0 {
            if i + 1 < |s| && s[i + 1] == '>' {
              assert MatchAt(Tag, s, i + 1) == 0;
              assert u == [s[i + 1]] + Sub(Tag, "", s, i + 2);
            } else if i + 1 < |s| {
              SubAvoids(Tag, "", s, i + 1, '>');
            }
          } else {
            assert u[a - 1] == '<';
          }
        }
      }
    }
  }

  // ----- Properties of the two delimited-span steps -----

  /** No opener is followed by a closer on the same line. */
  ghost predicate NoPairOnLine(t: seq<char>, open: char, close: char) {
    forall a, b :: 0 <= a < b < |t| && t[a] == open && t[b] == close ==>
      exists m :: a < m < b && t[m] == '\n'
  }

  /** A closer on the first line of the substituted text comes from a closer on
      the first line of s[j..]: a removed span never holds a line feed. */
  lemma {:induction false} CloserOnFirstLine(open: char, close: char, s: seq<char>, j: nat, b: nat)
    requires open != '\n' && close != '\n'
    requires j <= |s|
    requires b < |Sub(Delimited(open, close), "", s, j)| && Sub(Delimited(open, close), "", s, j)[b] == close
    requires forall m :: 0 <= m < b ==> Sub(Delimited(open, close), "", s, j)[m] != '\n'
    ensures exists q :: j <= q < |s| && s[q] == close && forall m :: j <= m < q ==> s[m] != '\n'
    decreases |s| - j
  {
    var n := MatchAt(Delimited(open, close), s, j);
    if n > 0 {
      assert n == MatchDelimited(s, j, open, close);
      DelimitedMatch(s, j, open, close);
      var q := j + n - 1;
      assert s[q] == close && forall m :: j <= m < q ==> s[m] != '\n';
    } else {
      assert Sub(Delimited(open, close), "", s, j) == [s[j]] + Sub(Delimited(open, close), "", s, j + 1);
      if b > 0 {
        FirstLineOfTail(s[j], Sub(Delimited(open, close), "", s, j + 1), b, close);
        CloserOnFirstLine(open, close, s, j + 1, b - 1);
        var q :| j + 1 <= q < |s| && s[q] == close && forall m :: j + 1 <= m < q ==> s[m] != '\n';
        assert forall m :: j <= m < q ==> s[m] != '\n';
      } else {
        assert s[j] == close;
      }
    }
  }

  /** Dropping the first character of a line that holds x at position b. */
  lemma FirstLineOfTail(c: char, u: seq<char>, b: nat, x: char)
    requires 0 < b < |[c] + u| && ([c] + u)[b] == x
    requires forall m :: 0 <= m < b ==> ([c] + u)[m] != '\n'
    ensures c != '\n' && u[b - 1] == x
    ensures forall m :: 0 <= m < b - 1 ==> u[m] != '\n'
  {
    var t := [c] + u;
    assert t[0] == c;
    assert forall m :: 0 <= m < b - 1 ==> u[m] == t[m + 1];
  }

  /** Every occurrence of c in u comes after a line feed. */
  ghost predicate LineFeedBeforeEach(u: seq<char>, c: char) {
    forall b :: 0 <= b < |u| && u[b] == c ==> exists m :: 0 <= m < b && u[m] == '\n'
  }

  /** Putting one character in front keeps NoPairOnLine, as long as an opener put
      there finds a line feed before every closer. */
  lemma PrependKeepsNoPair(c: char, u: seq<char>, open: char, close: char)
    requires NoPairOnLine(u, open, close)
    requires c == open ==> LineFeedBeforeEach(u, close)
    ensures NoPairOnLine([c] + u, open, close)
  {
    var t := [c] + u;
    forall a, b | 0 <= a < b < |t| && t[a] == open && t[b] == close
      ensures exists m :: a < m < b && t[m] == '\n'
    {
      assert u[b - 1] == close;
      if a == 0 {
        var m :| 0 <= m < b - 1 && u[m] == '\n';
        assert t[m + 1] == '\n';
      } else {
        assert u[a - 1] == open;
        var m :| a - 1 < m < b - 1 && u[m] == '\n';
        assert t[m + 1] == '\n';
      }
    }
  }

  /** An opener that does not start a match finds a line feed before every closer
      of the rest of the substituted text. */
  lemma UnmatchedOpenerSeesLineFeed(open: char, close: char, s: seq<char>, i: nat)
    requires open != '\n' && close != '\n'
    requires i < |s| && s[i] == open && MatchAt(Delimited(open, close), s, i) == 0
    ensures LineFeedBeforeEach(Sub(Delimited(open, close), "", s, i + 1), close)
  {
    var u := Sub(Delimited(open, close), "", s, i + 1);
    forall b | 0 <= b < |u| && u[b] == close
      ensures exists m :: 0 <= m < b && u[m] == '\n'
    {
      if !exists m :: 0 <= m < b && u[m] == '\n' {
        CloserOnFirstLine(open, close, s, i + 1, b);
        assert MatchDelimited(s, i, open, close) == 0;
        DelimitedMatch(s, i, open, close);
        assert false;
      }
    }
  }

  lemma {:induction false} DelimitedPairsRemoved(open: char, close: char, s: seq<char>, i: nat)
    requires open != '\n' && close != '\n'
    requires i <= |s|
    ensures NoPairOnLine(Sub(Delimited(open, close), "", s, i), open, close)
    decreases |s| - i
  {
    if i < |s| {
      var n := MatchAt(Delimited(open, close), s, i);
      if n > 0 {
        DelimitedPairsRemoved(open, close, s, i + n);
        assert Sub(Delimited(open, close), "", s, i) == Sub(Delimited(open, close), "", s, i + n);
      } else {
        DelimitedPairsRemoved(open, close, s, i + 1);
        if s[i] == open {
          UnmatchedOpenerSeesLineFeed(open, close, s, i);
        }
        PrependKeepsNoPair(s[i], Sub(Delimited(open, close), "", s, i + 1), open, close);
      }
    }
  }

  // ----- Properties of the two whitespace steps -----

  lemma {:induction false} NewlinesJoined(s: seq<char>, i: nat)
    requires i <= |s|
    ensures forall k :: 0 <= k < |Sub(Newlines, " ", s, i)| ==> Sub(Newlines, " ", s, i)[k] != '\n'
    decreases |s| - i
  {
    if i < |s| {
      var n := MatchAt(Newlines, s, i);
      var t := Sub(Newlines, " ", s, i);
      if n > 0 {
        NewlinesJoined(s, i + n);
        assert t == " " + Sub(Newlines, " ", s, i + n);
      } else {
        NewlinesJoined(s, i + 1);
        assert t == [s[i]] + Sub(Newlines, " ", s, i + 1);
      }
    }
  }

  /** Every whitespace character is a plain space and no two whitespace characters
      are adjacent. */
  ghost predicate Collapsed(t: seq<char>) {
    (forall k :: 0 <= k < |t| && IsSpace(t[k]) ==> t[k] == ' ')
    && (forall k :: 0 <= k < |t| - 1 ==> !(IsSpace(t[k]) && IsSpace(t[k + 1])))
  }

  /** Putting one character in front keeps Collapsed, as long as a whitespace
      character put there is a space and is not followed by whitespace. */
  lemma PrependKeepsCollapsed(c: char, u: seq<char>)
    requires Collapsed(u)
    requires IsSpace(c) ==> c == ' ' && (u != [] ==> !IsSpace(u[0]))
    ensures Collapsed([c] + u)
  {
    var t := [c] + u;
    assert forall k :: 0 < k < |t| ==> t[k] == u[k - 1];
  }

  lemma {:induction false} SpacesCollapsed(s: seq<char>, i: nat)
    requires i <= |s|
    ensures Collapsed(Sub(Spaces, " ", s, i))
    ensures i < |s| ==> |Sub(Spaces, " ", s, i)| > 0 && (IsSpace(Sub(Spaces, " ", s, i)[0]) <==> IsSpace(s[i]))
    decreases |s| - i
  {
    if i < |s| {
      var n := MatchAt(Spaces, s, i);
      SpacesMatch(s, i);
      if n > 0 {
        SpacesCollapsed(s, i + n);
        PrependKeepsCollapsed(' ', Sub(Spaces, " ", s, i + n));
      } else {
        SpacesCollapsed(s, i + 1);
        PrependKeepsCollapsed(s[i], Sub(Spaces, " ", s, i + 1));
      }
    }
  }

  // ----- Trimming -----

  /** Python `str.lstrip()`. */
  function TrimStart(s: seq<char>): (t: seq<char>)
    ensures |t| <= |s| && t == s[|s| - |t|..]
    ensures forall k :: 0 <= k < |s| - |t| ==> IsSpace(s[k])
    ensures t != [] ==> !IsSpace(t[0])
  {
    if s != [] && IsSpace(s[0]) then
      var t := TrimStart(s[1..]);
      assert forall k :: 0 < k < |s| ==> s[k] == s[1..][k - 1];
      t
    else s
  }

  /** Python `str.rstrip()`. */
  function TrimEnd(s: seq<char>): (t: seq<char>)
    ensures |t| <= |s| && t == s[..|t|]
    ensures forall k :: |t| <= k < |s| ==> IsSpace(s[k])
    ensures t != [] ==> !IsSpace(t[|t| - 1])
  {
    if s != [] && IsSpace(s[|s| - 1]) then
      var t := TrimEnd(s[..|s| - 1]);
      assert forall k :: 0 <= k < |s| - 1 ==> s[k] == s[..|s| - 1][k];
      t
    else s
  }

  /** Python `str.strip()`: t is s with its leading and trailing whitespace removed. */
  function Strip(s: seq<char>): (t: seq<char>)
    ensures exists a :: Trimming(s, a, t)
    ensures t != [] ==> !IsSpace(t[0]) && !IsSpace(t[|t| - 1])
  {
    TrimsAreTrimming(s);
    TrimEnd(TrimStart(s))
  }

  lemma TrimsAreTrimming(s: seq<char>)
    ensures Trimming(s, |s| - |TrimStart(s)|, TrimEnd(TrimStart(s)))
  {
    TrimmingOfParts(s, TrimStart(s), TrimEnd(TrimStart(s)));
  }

  /** Dropping a whitespace prefix and then a whitespace suffix is a trimming. */
  lemma TrimmingOfParts(s: seq<char>, u: seq<char>, t: seq<char>)
    requires |u| <= |s| && u == s[|s| - |u|..]
    requires forall k :: 0 <= k < |s| - |u| ==> IsSpace(s[k])
    requires |t| <= |u| && t == u[..|t|]
    requires forall k :: |t| <= k < |u| ==> IsSpace(u[k])
    ensures Trimming(s, |s| - |u|, t)
  {
    var a := |s| - |u|;
    assert forall k :: 0 <= k < |u| ==> u[k] == s[a + k];
    assert t == s[a..a + |t|];
  }

  /** A text without whitespace at either end is its own strip; in particular
      stripping twice is stripping once. */
  lemma StripKeepsTrimmed(s: seq<char>)
    requires s != [] ==> !IsSpace(s[0]) && !IsSpace(s[|s| - 1])
    ensures Strip(s) == s
  {
    assert TrimStart(s) == s;
    assert TrimEnd(s) == s;
  }

  lemma StripIdempotent(s: seq<char>)
    ensures Strip(Strip(s)) == Strip(s)
  {
    StripKeepsTrimmed(Strip(s));
  }

  /** t is s[a..a + |t|], and everything of s before and after it is whitespace. */
  ghost predicate Trimming(s: seq<char>, a: nat, t: seq<char>) {
    a + |t| <= |s| && t == s[a..a + |t|]
    && (forall k :: 0 <= k < a ==> IsSpace(s[k]))
    && (forall k :: a + |t| <= k < |s| ==> IsSpace(s[k]))
  }

  // ----- The seven steps and the whole cleaner -----

  function RemoveHeaders(s: seq<char>): (t: seq<char>)
    ensures |t| <= |s|
    ensures forall a :: 0 <= a < |t| ==> MatchHeader(t, a) == 0
  {
    var t := Sub(Header, "", s, 0);
    HeadersRemoved(s, 0);
    forall a | 0 <= a < |t|
      ensures MatchHeader(t, a) == 0
    {
      HeaderFreeIsNoMatch(t, a);
    }
    t
  }

  /** Text in which no "WEBVTT" occurs passes the header step unchanged. */
  lemma HeaderlessUnchanged(s: seq<char>)
    requires forall k :: 0 <= k < |s| ==> !LiteralAt(s, k, HeaderWord)
    ensures RemoveHeaders(s) == s
  {
    SubWithoutMatches(Header, "", s, 0);
  }

  function RemoveCueTimings(s: seq<char>): (t: seq<char>)
    ensures |t| <= |s|
  {
    Sub(CueTiming, "", s, 0)
  }

  /** Text in which no full cue range occurs passes the cue-timing step unchanged. */
  lemma NoCueRangeUnchanged(s: seq<char>)
    requires forall k :: 0 <= k < |s| ==> !CueRangeAt(s, k)
    ensures RemoveCueTimings(s) == s
  {
    SubWithoutMatches(CueTiming, "", s, 0);
  }

  /** A timing match ends with a line feed, so text without one, such as a last
      timing line with no line feed after it, passes the cue-timing step unchanged. */
  lemma NoLineFeedUnchanged(s: seq<char>)
    requires forall k :: 0 <= k < |s| ==> s[k] != '\n'
    ensures RemoveCueTimings(s) == s
  {
    forall k | 0 <= k < |s|
      ensures MatchAt(CueTiming, s, k) == 0
    {
      CueTimingMatch(s, k);
    }
    SubWithoutMatches(CueTiming, "", s, 0);
  }

  function RemoveTags(s: seq<char>): (t: seq<char>)
    ensures |t| <= |s|
    ensures NoTagLeft(t)
  {
    TagsRemoved(s, 0);
    Sub(Tag, "", s, 0)
  }

  function RemoveBrackets(s: seq<char>): (t: seq<char>)
    ensures |t| <= |s|
    ensures NoPairOnLine(t, '[', ']')
  {
    DelimitedPairsRemoved('[', ']', s, 0);
    Sub(Bracket, "", s, 0)
  }

  function RemoveLyrics(s: seq<char>): (t: seq<char>)
    ensures |t| <= |s|
    ensures NoPairOnLine(t, Note, Note)
  {
    DelimitedPairsRemoved(Note, Note, s, 0);
    Sub(Lyric, "", s, 0)
  }

  function JoinLines(s: seq<char>): (t: seq<char>)
    ensures |t| <= |s|
    ensures forall k :: 0 <= k < |t| ==> t[k] != '\n'
  {
    NewlinesJoined(s, 0);
    Sub(Newlines, " ", s, 0)
  }

  function CollapseSpaces(s: seq<char>): (t: seq<char>)
    ensures |t| <= |s|
    ensures Collapsed(t)
  {
    SpacesCollapsed(s, 0);
    Sub(Spaces, " ", s, 0)
  }

  /** `clean_subtitle_text`: the result is a single line of single-spaced words
      with no whitespace at either end (see also CleanIsOneLine). */
  function Clean(vtt: seq<char>): (r: seq<char>)
    ensures |r| <= |vtt|
    ensures Collapsed(r)
    ensures r != [] ==> !IsSpace(r[0]) && !IsSpace(r[|r| - 1])
  {
    var collapsed := CollapseSpaces(JoinLines(RemoveLyrics(RemoveBrackets(
      RemoveTags(RemoveCueTimings(RemoveHeaders(vtt)))))));
    StrippedStaysCollapsed(collapsed);
    Strip(collapsed)
  }

  /** In particular the cleaned text holds no line feed. */
  lemma CleanIsOneLine(vtt: seq<char>)
    ensures forall k :: 0 <= k < |Clean(vtt)| ==> Clean(vtt)[k] != '\n'
  {
    var r := Clean(vtt);
    assert forall k :: 0 <= k < |r| ==> IsSpace(r[k]) ==> r[k] == ' ';
  }

  lemma StrippedStaysCollapsed(s: seq<char>)
    requires Collapsed(s)
    ensures Collapsed(Strip(s))
  {
    var u := TrimStart(s);
    CollapsedSlice(s, |s| - |u|, |s|);
    CollapsedSlice(u, 0, |TrimEnd(u)|);
  }

  lemma CollapsedSlice(s: seq<char>, a: nat, b: nat)
    requires Collapsed(s) && a <= b <= |s|
    ensures Collapsed(s[a..b])
  {
    assert forall k :: 0 <= k < b - a ==> s[a..b][k] == s[a + k];
  }
}
