/** Worked cases of the subtitle cleaner, each evaluated one cleaning step at a time. */
module CaptionExamples {
  import opened CaptionCleaner

  const SplitBracket: string := "[a\nb]"
  const JoinedBracket: string := "[a b]"

  // The steps of Clean on SplitBracket.

  lemma SplitBracketNoHeader()
    ensures RemoveHeaders(SplitBracket) == SplitBracket
  {
  }

  lemma SplitBracketNoCue()
    ensures RemoveCueTimings(SplitBracket) == SplitBracket
  {
  }

  lemma SplitBracketNoTag()
    ensures RemoveTags(SplitBracket) == SplitBracket
  {
  }

  lemma SplitBracketNotAPair()
    ensures RemoveBrackets(SplitBracket) == SplitBracket
  {
    assert MatchAt(Bracket, SplitBracket, 0) == 0;
  }

  lemma SplitBracketNoLyric()
    ensures RemoveLyrics(SplitBracket) == SplitBracket
  {
  }

  lemma SplitBracketJoined()
    ensures JoinLines(SplitBracket) == JoinedBracket
  {
  }

  lemma JoinedBracketCollapsed()
    ensures CollapseSpaces(JoinedBracket) == JoinedBracket
  {
  }

  lemma JoinedBracketStripped()
    ensures Strip(JoinedBracket) == JoinedBracket
  {
    StripKeepsTrimmed(JoinedBracket);
  }

  // The steps of Clean on JoinedBracket.

  lemma JoinedBracketNoHeader()
    ensures RemoveHeaders(JoinedBracket) == JoinedBracket
  {
  }

  lemma JoinedBracketNoCue()
    ensures RemoveCueTimings(JoinedBracket) == JoinedBracket
  {
  }

  lemma JoinedBracketNoTag()
    ensures RemoveTags(JoinedBracket) == JoinedBracket
  {
  }

  lemma JoinedBracketRemoved()
    ensures RemoveBrackets(JoinedBracket) == ""
  {
    assert MatchAt(Bracket, JoinedBracket, 0) == 5;
  }

  /** Bracketed text is removed only within one line, and line feeds are joined only
      after that step, so cleaning a cleaned text can remove more: the cleaner is not
      idempotent. */
  lemma CleanNotIdempotent()
    ensures Clean(SplitBracket) == JoinedBracket
    ensures Clean(Clean(SplitBracket)) == ""
    ensures Clean(Clean(SplitBracket)) != Clean(SplitBracket)
  {
    SplitBracketNoHeader();
    SplitBracketNoCue();
    SplitBracketNoTag();
    SplitBracketNotAPair();
    SplitBracketNoLyric();
    SplitBracketJoined();
    JoinedBracketCollapsed();
    JoinedBracketStripped();
    JoinedBracketNoHeader();
    JoinedBracketNoCue();
    JoinedBracketNoTag();
    JoinedBracketRemoved();
  }

  // ----- A whole caption file -----

  /** A word of ASCII letters. 'W' is left out so that no word can be taken for the
      start of a "WEBVTT" header line. */
  predicate IsWord(w: seq<char>) {
    w != [] && forall k :: 0 <= k < |w| ==> ('a' <= w[k] <= 'z' || 'A' <= w[k] <= 'Z') && w[k] != 'W'
  }

  predicate IsTimestamp(t: seq<char>) {
    |t| == 12 && TimestampAt(t, 0)
  }

  const HeaderBlock: string := "WEBVTT\n\n"

  /** The timing line of one cue. */
  function CueLine(start: string, end: string): string {
    start + (" --> " + (end + "\n"))
  }

  /** One caption line "a [m] b" followed by a blank line. */
  function TextLine(a: string, m: string, b: string): string {
    a + (" " + ("[" + (m + ("]" + (" " + (b + "\n\n"))))))
  }

  /** A caption file: the header block, then one cue. */
  function CaptionFile(start: string, end: string, a: string, m: string, b: string): string {
    HeaderBlock + (CueLine(start, end) + TextLine(a, m, b))
  }

  /** A caption file: the header block, one cue timing line and the line `Hello [Music] world`. */
  const Sample: string := "WEBVTT\n\n" + ("00:00:00.000 --> 00:00:02.000\n" + "Hello [Music] world\n\n")

  lemma TimestampInert(t: seq<char>)
    requires IsTimestamp(t)
    ensures Inert(Header, t)
  {
    forall k | 0 <= k < |t|
      ensures t[k] != 'W'
    {
      assert k in {0, 1, 2, 3, 4, 5, 6, 7, 8, 9, 10, 11};
    }
  }

  lemma WordInert(p: Pattern, w: seq<char>)
    requires IsWord(w)
    requires p.Delimited? ==> p.open == '[' || p.open == Note
    ensures Inert(p, w)
  {
  }

  /** Nothing in the caption line can start a header, a cue timing or a tag. */
  lemma TextLineInert(p: Pattern, a: string, m: string, b: string)
    requires IsWord(a) && IsWord(m) && IsWord(b)
    requires p == Header || p == CueTiming || p == Tag
    ensures Inert(p, TextLine(a, m, b))
  {
    WordInert(p, a);
    WordInert(p, m);
    WordInert(p, b);
    InertAppend(p, b, "\n\n");
    InertAppend(p, " ", b + "\n\n");
    InertAppend(p, "]", " " + (b + "\n\n"));
    InertAppend(p, m, "]" + (" " + (b + "\n\n")));
    InertAppend(p, "[", m + ("]" + (" " + (b + "\n\n"))));
    InertAppend(p, " ", "[" + (m + ("]" + (" " + (b + "\n\n")))));
    InertAppend(p, a, " " + ("[" + (m + ("]" + (" " + (b + "\n\n"))))));
  }

  lemma HeaderStep(start: string, end: string, a: string, m: string, b: string)
    requires IsTimestamp(start) && IsTimestamp(end) && IsWord(a) && IsWord(m) && IsWord(b)
    ensures RemoveHeaders(CaptionFile(start, end, a, m, b)) == CueLine(start, end) + TextLine(a, m, b)
  {
    var f := CaptionFile(start, end, a, m, b);
    var rest := CueLine(start, end) + TextLine(a, m, b);
    assert f[..6] == HeaderWord;
    assert MatchAt(Header, f, 0) == 8;
    TimestampInert(start);
    TimestampInert(end);
    InertAppend(Header, end, "\n");
    InertAppend(Header, " --> ", end + "\n");
    InertAppend(Header, start, " --> " + (end + "\n"));
    TextLineInert(Header, a, m, b);
    InertAppend(Header, CueLine(start, end), TextLine(a, m, b));
    SubMatchThenCopy(Header, "", f, 0, 8, rest);
  }

  /** The cue-timing pattern matches the whole timing line, line feed included. */
  lemma CueLineMatch(start: string, end: string, rest: string)
    requires IsTimestamp(start) && IsTimestamp(end)
    ensures MatchAt(CueTiming, CueLine(start, end) + rest, 0) == 30
  {
    var t := CueLine(start, end) + rest;
    assert forall k :: 0 <= k < 12 ==> t[k] == start[k] && t[17 + k] == end[k];
    assert t[12..17] == " --> ";
    assert CueRangeAt(t, 0);
    FirstOfAt(t, 29, 29, '\n', '\n');
  }

  lemma CueStep(start: string, end: string, a: string, m: string, b: string)
    requires IsTimestamp(start) && IsTimestamp(end) && IsWord(a) && IsWord(m) && IsWord(b)
    ensures RemoveCueTimings(CueLine(start, end) + TextLine(a, m, b)) == TextLine(a, m, b)
  {
    CueLineMatch(start, end, TextLine(a, m, b));
    TextLineInert(CueTiming, a, m, b);
    SubMatchThenCopy(CueTiming, "", CueLine(start, end) + TextLine(a, m, b), 0, 30, TextLine(a, m, b));
  }

  lemma TagStep(a: string, m: string, b: string)
    requires IsWord(a) && IsWord(m) && IsWord(b)
    ensures RemoveTags(TextLine(a, m, b)) == TextLine(a, m, b)
  {
    TextLineInert(Tag, a, m, b);
    SubCopiesRest(Tag, "", TextLine(a, m, b), 0, TextLine(a, m, b));
  }

  /** The caption line once its bracketed word is gone. */
  function Unbracketed(a: string, b: string): string {
    a + (" " + (" " + (b + "\n\n")))
  }

  /** The bracket pattern matches "[m]". */
  lemma BracketSpanMatch(a: string, m: string, b: string)
    requires IsWord(m)
    ensures MatchAt(Bracket, TextLine(a, m, b), |a| + 1) == |m| + 2
  {
    var s := TextLine(a, m, b);
    assert forall k :: 0 <= k < |m| ==> s[|a| + 2 + k] == m[k];
    FirstOfAt(s, |a| + 2, |a| + 2 + |m|, ']', '\n');
  }

  lemma TextLineLayout(a: string, m: string, b: string)
    ensures var s := TextLine(a, m, b);
      var rest := " " + (b + "\n\n");
      && |a| + 1 + (|m| + 2) + |rest| == |s|
      && (forall k :: 0 <= k < |a| ==> s[k] == a[k])
      && s[|a|] == ' '
      && (forall k :: 0 <= k < |rest| ==> s[|a| + 1 + (|m| + 2) + k] == rest[k])
  {
  }

  /** The bracket step from a space followed by a span of length n and an inert rest. */
  lemma SpaceSpanDropped(s: seq<char>, j: nat, n: nat, rest: seq<char>)
    requires j + 1 + n + |rest| == |s|
    requires s[j] == ' '
    requires n > 0 && MatchAt(Bracket, s, j + 1) == n
    requires forall k :: 0 <= k < |rest| ==> s[j + 1 + n + k] == rest[k]
    requires Inert(Bracket, rest)
    ensures Sub(Bracket, "", s, j) == " " + rest
  {
    assert Sub(Bracket, "", s, j) == " " + Sub(Bracket, "", s, j + 1) by {
      SubCopiesPiece(Bracket, "", s, j, " ");
    }
    SubMatchThenCopy(Bracket, "", s, j + 1, n, rest);
  }

  /** The bracket step from position i of a text laid out there as a, a space, a
      span of length n, rest. */
  lemma BracketSpanDropped(s: seq<char>, i: nat, a: seq<char>, n: nat, rest: seq<char>)
    requires i + |a| + 1 + n + |rest| == |s|
    requires forall k :: 0 <= k < |a| ==> s[i + k] == a[k]
    requires s[i + |a|] == ' '
    requires Inert(Bracket, a)
    requires n > 0 && MatchAt(Bracket, s, i + |a| + 1) == n
    requires forall k :: 0 <= k < |rest| ==> s[i + |a| + 1 + n + k] == rest[k]
    requires Inert(Bracket, rest)
    ensures Sub(Bracket, "", s, i) == a + (" " + rest)
  {
    SubCopiesPiece(Bracket, "", s, i, a);
    SpaceSpanDropped(s, i + |a|, n, rest);
  }

  lemma BracketStep(a: string, m: string, b: string)
    requires IsWord(a) && IsWord(m) && IsWord(b)
    ensures RemoveBrackets(TextLine(a, m, b)) == Unbracketed(a, b)
  {
    WordInert(Bracket, a);
    WordInert(Bracket, b);
    InertAppend(Bracket, b, "\n\n");
    InertAppend(Bracket, " ", b + "\n\n");
    TextLineLayout(a, m, b);
    BracketSpanMatch(a, m, b);
    BracketSpanDropped(TextLine(a, m, b), 0, a, |m| + 2, " " + (b + "\n\n"));
  }

  lemma LyricStep(a: string, b: string)
    requires IsWord(a) && IsWord(b)
    ensures RemoveLyrics(Unbracketed(a, b)) == Unbracketed(a, b)
  {
    WordInert(Lyric, a);
    WordInert(Lyric, b);
    InertAppend(Lyric, b, "\n\n");
    InertAppend(Lyric, " ", b + "\n\n");
    InertAppend(Lyric, " ", " " + (b + "\n\n"));
    InertAppend(Lyric, a, " " + (" " + (b + "\n\n")));
    SubCopiesRest(Lyric, "", Unbracketed(a, b), 0, Unbracketed(a, b));
  }

  /** The line once its line feeds are joined. */
  function Joined(a: string, b: string): string {
    a + (" " + (" " + (b + " ")))
  }

  /** The line-feed step on w followed by a blank line: the blank line becomes one space. */
  lemma BlankLineJoined(s: seq<char>, w: seq<char>)
    requires |w| + 2 == |s|
    requires forall k :: 0 <= k < |w| ==> s[k] == w[k]
    requires s[|w|] == '\n' && s[|w| + 1] == '\n'
    requires Inert(Newlines, w)
    ensures Sub(Newlines, " ", s, 0) == w + " "
  {
    var t0 := Sub(Newlines, " ", s, 0);
    var t1 := Sub(Newlines, " ", s, |w|);
    assert t0 == w + t1 by { SubCopiesPiece(Newlines, " ", s, 0, w); }
    assert MatchAt(Newlines, s, |w|) == 2 by {
      assert MatchNewlines(s, |w| + 2) == 0;
      assert MatchNewlines(s, |w| + 1) == 1;
    }
    assert t1 == " " by { SubAtMatch(Newlines, " ", s, |w|, 2); }
  }

  lemma JoinStep(a: string, b: string)
    requires IsWord(a) && IsWord(b)
    ensures JoinLines(Unbracketed(a, b)) == Joined(a, b)
  {
    var s := Unbracketed(a, b);
    var w := a + (" " + (" " + b));
    assert forall k :: 0 <= k < |w| ==> s[k] == w[k];
    WordInert(Newlines, a);
    WordInert(Newlines, b);
    InertAppend(Newlines, " ", b);
    InertAppend(Newlines, " ", " " + b);
    InertAppend(Newlines, a, " " + (" " + b));
    BlankLineJoined(s, w);
    assert w + " " == Joined(a, b);
  }

  /** A run of two spaces followed by a non-space. */
  lemma TwoSpacesMatch(s: seq<char>, i: nat)
    requires i + 2 < |s| && s[i] == ' ' && s[i + 1] == ' ' && !IsSpace(s[i + 2])
    ensures MatchAt(Spaces, s, i) == 2
  {
    assert MatchSpaces(s, i + 2) == 0;
    assert MatchSpaces(s, i + 1) == 1;
  }

  /** The whitespace step on a, two spaces, b, one space. */
  lemma SpacesCollapsedBetween(s: seq<char>, a: seq<char>, b: seq<char>)
    requires |a| + 2 + |b| + 1 == |s| && b != []
    requires forall k :: 0 <= k < |a| ==> s[k] == a[k]
    requires s[|a|] == ' ' && s[|a| + 1] == ' '
    requires forall k :: 0 <= k < |b| ==> s[|a| + 2 + k] == b[k]
    requires s[|s| - 1] == ' '
    requires Inert(Spaces, a) && Inert(Spaces, b)
    ensures Sub(Spaces, " ", s, 0) == a + (" " + (b + " "))
  {
    var t0 := Sub(Spaces, " ", s, 0);
    var t1 := Sub(Spaces, " ", s, |a|);
    var t2 := Sub(Spaces, " ", s, |a| + 2);
    assert t0 == a + t1 by { SubCopiesPiece(Spaces, " ", s, 0, a); }
    assert t1 == " " + t2 by {
      assert s[|a| + 2] == b[0];
      TwoSpacesMatch(s, |a|);
      SubAtMatch(Spaces, " ", s, |a|, 2);
    }
    assert t2 == b + " " by { SpaceEnds(s, |a| + 2, b); }
  }

  /** The whitespace step on b followed by one final space. */
  lemma SpaceEnds(s: seq<char>, i: nat, b: seq<char>)
    requires i + |b| + 1 == |s|
    requires forall k :: 0 <= k < |b| ==> s[i + k] == b[k]
    requires s[|s| - 1] == ' '
    requires Inert(Spaces, b)
    ensures Sub(Spaces, " ", s, i) == b + " "
  {
    var t3 := Sub(Spaces, " ", s, |s| - 1);
    assert Sub(Spaces, " ", s, i) == b + t3 by { SubCopiesPiece(Spaces, " ", s, i, b); }
    assert MatchSpaces(s, |s|) == 0;
    assert t3 == " " by { SubAtMatch(Spaces, " ", s, |s| - 1, 1); }
  }

  lemma CollapseStep(a: string, b: string)
    requires IsWord(a) && IsWord(b)
    ensures CollapseSpaces(Joined(a, b)) == a + (" " + (b + " "))
  {
    var s := Joined(a, b);
    assert forall k :: 0 <= k < |b| ==> s[|a| + 2 + k] == b[k];
    WordInert(Spaces, a);
    WordInert(Spaces, b);
    SpacesCollapsedBetween(s, a, b);
  }

  lemma StripStep(a: string, b: string)
    requires IsWord(a) && IsWord(b)
    ensures Strip(a + (" " + (b + " "))) == a + (" " + b)
  {
    var x := a + (" " + (b + " "));
    var y := a + (" " + b);
    assert TrimStart(x) == x;
    assert x[..|x| - 1] == y;
    assert TrimEnd(y) == y;
  }

  /** A caption file holding a header block and one cue with a caption line
      "a [m] b" cleans to "a b": the header, the timing line and the bracketed
      word are removed, and the spaces left behind are collapsed and trimmed. */
  lemma CaptionFileCleaned(start: string, end: string, a: string, m: string, b: string)
    requires IsTimestamp(start) && IsTimestamp(end) && IsWord(a) && IsWord(m) && IsWord(b)
    ensures Clean(CaptionFile(start, end, a, m, b)) == a + " " + b
  {
    HeaderStep(start, end, a, m, b);
    CueStep(start, end, a, m, b);
    TagStep(a, m, b);
    BracketStep(a, m, b);
    LyricStep(a, b);
    JoinStep(a, b);
    CollapseStep(a, b);
    StripStep(a, b);
  }

  lemma SampleCue()
    ensures CueLine("00:00:00.000", "00:00:02.000") == "00:00:00.000 --> 00:00:02.000\n"
  {
  }

  lemma SampleText()
    ensures TextLine("Hello", "Music", "world") == "Hello [Music] world\n\n"
  {
  }

  /** The sample is a caption file of the shape above, with the words "Hello",
      "Music" and "world"; by CaptionFileCleaned it cleans to "Hello world". */
  lemma SampleIsCaptionFile()
    ensures Sample == CaptionFile("00:00:00.000", "00:00:02.000", "Hello", "Music", "world")
  {
    SampleCue();
    SampleText();
  }

  lemma SampleQualifies()
    ensures IsTimestamp("00:00:00.000") && IsTimestamp("00:00:02.000")
    ensures IsWord("Hello") && IsWord("Music") && IsWord("world")
  {
  }

  /** The facts about the sample that CaptionFileCleaned needs, and its two words joined. */
  lemma SampleFacts()
    ensures Sample == CaptionFile("00:00:00.000", "00:00:02.000", "Hello", "Music", "world")
    ensures IsTimestamp("00:00:00.000") && IsTimestamp("00:00:02.000")
    ensures IsWord("Hello") && IsWord("Music") && IsWord("world")
    ensures "Hello" + " " + "world" == "Hello world"
  {
    SampleIsCaptionFile();
    SampleQualifies();
  }

  /** The sample caption file cleans to "Hello world". */
  lemma SampleCleaned()
    ensures Clean(Sample) == "Hello world"
  {
    SampleFacts();
    CaptionFileCleaned("00:00:00.000", "00:00:02.000", "Hello", "Music", "world");
  }

  // ----- The cue-timing step does not remove every timing line -----

  lemma TimestampSpaceless(t: seq<char>)
    requires IsTimestamp(t)
    ensures forall k :: 0 <= k < |t| ==> t[k] != ' '
  {
    forall k | 0 <= k < |t|
      ensures t[k] != ' '
    {
      assert k in {0, 1, 2, 3, 4, 5, 6, 7, 8, 9, 10, 11};
    }
  }

  /** No timing match starts at k without room for a cue range or without the space
      of an arrow at k + 12. */
  lemma NoArrowNoMatch(s: seq<char>, k: nat)
    requires k < |s|
    requires k + 29 <= |s| ==> s[k + 12] != ' '
    ensures MatchAt(CueTiming, s, k) == 0
  {
    CueTimingMatch(s, k);
    if k + 29 <= |s| {
      assert s[k + 12..k + 17][0] != ' ';
    }
  }

  /** The text a timing line split by a whole timing line right after its first
      timestamp: t0, then the line start --> end, then the arrow and t2. */
  function SplitTiming(t0: string, start: string, end: string, t2: string): string {
    t0 + (CueLine(start, end) + (" --> " + (t2 + "\n")))
  }

  /** No timing match starts in the first 12 characters when a timestamp follows
      them. */
  lemma FrontCopied(s: seq<char>, start: string)
    requires IsTimestamp(start) && 24 <= |s|
    requires forall k :: 0 <= k < 12 ==> s[12 + k] == start[k]
    ensures Sub(CueTiming, "", s, 0) == s[..12] + Sub(CueTiming, "", s, 12)
  {
    TimestampSpaceless(start);
    forall k | 0 <= k < 12
      ensures MatchAt(CueTiming, s, k) == 0
    {
      NoArrowNoMatch(s, k);
    }
    SubNoMatchRange(CueTiming, "", s, 0, 12);
  }

  /** A whole timing line at position 12 is removed. */
  lemma InnerRemoved(s: seq<char>, start: string, end: string)
    requires IsTimestamp(start) && IsTimestamp(end) && 42 <= |s|
    requires forall k :: 0 <= k < 12 ==> s[12 + k] == start[k] && s[29 + k] == end[k]
    requires s[24..29] == " --> " && s[41] == '\n'
    ensures Sub(CueTiming, "", s, 12) == Sub(CueTiming, "", s, 42)
  {
    assert TimestampAt(s, 12) && TimestampAt(s, 29);
    assert CueRangeAt(s, 12);
    FirstOfAt(s, 41, 41, '\n', '\n');
    SubAtMatch(CueTiming, "", s, 12, 30);
  }

  /** Fewer than 29 characters from position j on hold no timing match. */
  lemma ShortTailCopied(s: seq<char>, j: nat)
    requires j <= |s| < j + 29
    ensures Sub(CueTiming, "", s, j) == s[j..]
  {
    forall k | j <= k < |s|
      ensures MatchAt(CueTiming, s, k) == 0
    {
      NoArrowNoMatch(s, k);
    }
    SubNoMatchRange(CueTiming, "", s, j, |s|);
  }

  /** Removing the inner timing line joins the two halves of the outer one into a
      timing line, which the step leaves in place: the scan does not look again at
      text it has passed. */
  lemma TimingLineReforms(t0: string, start: string, end: string, t2: string)
    requires IsTimestamp(t0) && IsTimestamp(start) && IsTimestamp(end) && IsTimestamp(t2)
    ensures RemoveCueTimings(SplitTiming(t0, start, end, t2)) == CueLine(t0, t2)
    ensures MatchCueTiming(CueLine(t0, t2), 0) == 30
  {
    var s := SplitTiming(t0, start, end, t2);
    assert |s| == 60;
    assert forall k :: 0 <= k < 12 ==> s[12 + k] == start[k] && s[29 + k] == end[k];
    assert s[24..29] == " --> ";
    FrontCopied(s, start);
    InnerRemoved(s, start, end);
    ShortTailCopied(s, 42);
    assert s[..12] == t0;
    assert s[42..] == " --> " + (t2 + "\n");
    CueLineMatch(t0, t2, "");
    assert CueLine(t0, t2) + "" == CueLine(t0, t2);
  }

  /** A timing line without hours is shorter than a cue range and is kept. */
  lemma HourlessTimingKept()
    ensures RemoveCueTimings("00:02.000 --> 00:04.000\n") == "00:02.000 --> 00:04.000\n"
  {
    ShortTailCopied("00:02.000 --> 00:04.000\n", 0);
  }

  /** A last timing line with no line feed after it is kept. */
  lemma UnterminatedTimingKept(start: string, end: string)
    requires IsTimestamp(start) && IsTimestamp(end)
    ensures RemoveCueTimings(start + " --> " + end) == start + " --> " + end
  {
    var s := start + " --> " + end;
    TimestampSpaceless(start);
    assert forall k :: 0 <= k < 12 ==> s[k] == start[k] && s[17 + k] == end[k];
    forall k | 0 <= k < |s|
      ensures s[k] != '\n'
    {
      if k >= 17 {
        assert k - 17 in {0, 1, 2, 3, 4, 5, 6, 7, 8, 9, 10, 11};
      } else if k < 12 {
        assert k in {0, 1, 2, 3, 4, 5, 6, 7, 8, 9, 10, 11};
      }
    }
    NoLineFeedUnchanged(s);
  }
}
