# YouTube Content Analyzer: a verified model of its own logic

The analyzer is a single Streamlit script (`main.py`). A user gives it a video URL. It
fetches the English captions of the video, or transcribes the audio when there are no
captions, and cleans the captions with seven regular-expression substitutions. It then
primes a locally hosted chat model with the text and lets the user ask questions,
streaming each answer to the page.

This project models the three parts of that script that are its own logic, and proves
properties of them:

- `CaptionCleaner.dfy` models `clean_subtitle_text`. Each regular expression is a
  hand-written matcher that returns the length of the match at a position. `Sub` is the
  left-to-right, non-overlapping scan of Python's `re.sub`. The scan indexes into the
  original text, so `^` (with the MULTILINE flag) sees that text's line starts. `.` in
  the header pattern crosses line feeds (DOTALL). The lazy `.*?` becomes "up to the
  first occurrence". The whitespace class is the set for which Python's `str.isspace`
  holds, and digits are ASCII digits (see "## Left out").
- `CaptionExamples.dfy` works through whole caption texts: a bracket split across two
  lines (which shows the cleaner is not idempotent), and every caption file made of a
  header block and one cue `a [m] b` whose words are ASCII letters other than 'W'
  (see CaptionFileCleaned under "## Left out"), the sample file among them. The caption
  text is the text as `open(..., 'r')` returns it (lines 78-79): universal-newline mode
  has already turned each `\r\n` into `\n`.
- `ContentExtraction.dfy` models the result handling of `get_subtitles` and
  `transcribe_audio`, and the fallback decision of `extract_youtube_content`. Downloads
  and speech recognition are inputs.
- `Conversation.dfy` models the session state (`messages`, `youtube_content`,
  `content_loaded`, `chat_history`) as the class `Session`. Its methods are the priming
  call, the streaming question call with its accumulation loop, the question form, the
  three quick-question buttons, the Clear button and the Analyze button. The chat model
  is an oracle whose answers are parameters. A priming answer is `Reply(text)` or
  `PrimeFailure`. A question answer is a `ChatStream`: the chunks delivered before the
  stream ended or broke off, and whether it completed.
- `Wrappers.dfy` holds `Option`, the model of a value that may be Python's `None`.

Three behaviours of the code are stated as they are:

- On a failed priming the code keeps the two seed messages and leaves
  `content_loaded` as it was, so it may still be true from an earlier video. It also
  keeps the new `youtube_content`, which line 222 stored before the call, and does not
  reset the chat history. `InitializeWithContent` and `LoadContent` state exactly this.
- After a broken stream the transcript holds the question without an answer, so user
  and assistant messages need not alternate. The invariant the model keeps
  (`Session.Valid`) is the one that holds for the code: only the first message is a
  system message, and while content is loaded the transcript opens with the seed of
  the stored text.
- The cue-timing substitution (line 124) does not remove every timing line. A line of
  the form `hh:mm:ss.ttt --> hh:mm:ss.ttt` followed by a line feed is removed where the
  scan finds it. But the scan does not look again at text it has passed, so a timing
  line can form again across a removed one (`TimingLineReforms`). Timings without
  hours, such as `00:02.000 --> 00:04.000`, are kept (`HourlessTimingKept`), and so is
  a last timing line with no line feed after it (`UnterminatedTimingKept`). The header
  substitution (line 123), in contrast, leaves no header block behind
  (`RemoveHeaders`).

## Model

| member | source | states |
|---|---|---|
| CaptionCleaner.HeaderMatch | main.py:123 | the header pattern matches exactly at a line start holding "WEBVTT" that is followed, at or after the end of that word, by a blank line; the match runs to and includes the first such blank line |
| CaptionCleaner.CueTimingMatch | main.py:124 | the cue pattern matches exactly where a full "hh:mm:ss.ttt --> hh:mm:ss.ttt" range in ASCII digits is followed by a line feed; the match ends at the first line feed after the range |
| CaptionCleaner.TagMatch | main.py:125 | a tag match is '<', at least one character other than '>' (line feeds included), then the first '>'; it exists exactly when such a '>' follows |
| CaptionCleaner.DelimitedMatch | main.py:126-127 | a bracket or lyric match is the opener, a stretch without closer or line feed, then the closer; an opener that does not match has a line feed before every later closer |
| CaptionCleaner.NewlinesMatch | main.py:128 | the newline pattern takes the whole run of line feeds at the position |
| CaptionCleaner.SpacesMatch | main.py:129 | the whitespace pattern takes the whole run of whitespace at the position |
| CaptionCleaner.SubWithoutMatches | main.py:123-129 | a substitution over a text where its pattern matches nowhere returns the text unchanged |
| CaptionCleaner.SubCopiesSpan | main.py:123-129 | a stretch holding no character that can start a match is copied unchanged, and the scan resumes after it |
| CaptionCleaner.SubAvoids | main.py:123-129 | a substitution introduces no character that is in neither the replacement nor the text |
| CaptionCleaner.SubNoMatchRange | main.py:123-127 | a stretch in which no match starts is copied as it is, and the scan resumes after it |
| CaptionCleaner.HeadersRemoved | main.py:123 | after the header scan from a position, no "WEBVTT" at a line start of the output is followed by a blank line; the front of the output counts as a line start only when the scan began at one |
| CaptionCleaner.RemoveHeaders | main.py:123 | the header step never lengthens the text and leaves no position where a header block matches |
| CaptionCleaner.HeaderlessUnchanged | main.py:123 | a text without any "WEBVTT" passes the header step unchanged |
| CaptionCleaner.NoCueRangeUnchanged | main.py:124 | a text without any full cue range passes the cue-timing step unchanged |
| CaptionCleaner.RemoveCueTimings | main.py:124 | the cue-timing step never lengthens the text |
| CaptionCleaner.NoLineFeedUnchanged | main.py:124 | a text without a line feed passes the cue-timing step unchanged, since every match ends with one |
| CaptionCleaner.TagsRemoved | main.py:125 | after the tag step, every '<' is directly followed by '>' or by no '>' at all |
| CaptionCleaner.RemoveTags | main.py:125 | the tag step never lengthens the text and leaves no tag |
| CaptionCleaner.DelimitedPairsRemoved | main.py:126-127 | after a span step, no opener is followed by a closer on the same line |
| CaptionCleaner.RemoveBrackets | main.py:126 | after the bracket step, no '[' is followed by a ']' on the same line |
| CaptionCleaner.RemoveLyrics | main.py:127 | after the lyric step, no two note characters stand on one line |
| CaptionCleaner.NewlinesJoined | main.py:128 | the newline step leaves no line feed |
| CaptionCleaner.JoinLines | main.py:128 | the newline step leaves no line feed and never lengthens the text |
| CaptionCleaner.SpacesCollapsed | main.py:129 | after the whitespace step, every whitespace character is a space and no two are adjacent; the result starts with whitespace exactly when the text does |
| CaptionCleaner.CollapseSpaces | main.py:129 | the whitespace step leaves single plain spaces only |
| CaptionCleaner.TrimStart | main.py:130 | the result is a suffix of the text, everything dropped is whitespace, and it does not start with whitespace |
| CaptionCleaner.TrimEnd | main.py:130 | the result is a prefix of the text, everything dropped is whitespace, and it does not end with whitespace |
| CaptionCleaner.Strip | main.py:130 | the result is a slice of the text with only whitespace around it, and it neither starts nor ends with whitespace |
| CaptionCleaner.StripKeepsTrimmed | main.py:130 | a text with no whitespace at either end is its own strip |
| CaptionCleaner.StripIdempotent | main.py:130 | stripping twice is stripping once |
| CaptionCleaner.StrippedStaysCollapsed | main.py:129-130 | stripping a collapsed text keeps it collapsed |
| CaptionCleaner.Clean | main.py:121-130 | the cleaned text is no longer than the caption file, holds only single plain spaces as whitespace, and has no whitespace at either end |
| CaptionCleaner.CleanIsOneLine | main.py:128-130 | the cleaned text holds no line feed |
| CaptionExamples.CleanNotIdempotent | main.py:121-130 | "[a\nb]" cleans to "[a b]", which cleans to "", so cleaning twice differs from cleaning once |
| CaptionExamples.HeaderStep | main.py:123 | the header step removes exactly the "WEBVTT" block of a caption file |
| CaptionExamples.CueStep | main.py:124 | the cue-timing step removes exactly the timing line |
| CaptionExamples.TagStep | main.py:125 | the tag step leaves a caption line of words unchanged |
| CaptionExamples.BracketStep | main.py:126 | the bracket step removes "[m]" and nothing else |
| CaptionExamples.LyricStep | main.py:127 | the lyric step leaves the line unchanged |
| CaptionExamples.JoinStep | main.py:128 | the newline step turns the closing blank line into one space |
| CaptionExamples.CollapseStep | main.py:129 | the whitespace step turns the double space into one |
| CaptionExamples.StripStep | main.py:130 | trimming removes the trailing space |
| CaptionExamples.CaptionFileCleaned | main.py:121-130 | a file of a "WEBVTT" header block, a cue timing line and the caption line "a [m] b" cleans to "a b" |
| CaptionExamples.SampleIsCaptionFile | main.py:123-130 | the sample file is that caption file for the words "Hello", "Music", "world" |
| CaptionExamples.SampleQualifies | main.py:123-130 | the sample's timestamps and words meet the conditions of CaptionFileCleaned |
| CaptionExamples.SampleCleaned | main.py:121-130 | the sample caption file ("WEBVTT", one cue, "Hello [Music] world") cleans to exactly "Hello world" |
| CaptionExamples.TimingLineReforms | main.py:124 | a timing line split right after its first timestamp by a whole timing line becomes, once the inner line is removed, a timing line the step would remove, and the step keeps it |
| CaptionExamples.HourlessTimingKept | main.py:124 | a timing line without hours passes the cue-timing step unchanged |
| CaptionExamples.UnterminatedTimingKept | main.py:124 | a timing line with no line feed after it passes the cue-timing step unchanged |
| ContentExtraction.Subtitles | main.py:75-81 | subtitles exist exactly when a caption file was found; each one is its cleaned text: no longer, one line, single plain spaces only, no whitespace at either end |
| ContentExtraction.Transcript | main.py:115 | a transcript exists exactly when the recogniser returned text, and it is that text stripped |
| ContentExtraction.ChooseContent | main.py:38-56 | the result is absent or truthy, and when present it is one of the two inputs |
| ContentExtraction.SubtitlesPreferred | main.py:38-43 | truthy subtitles are returned, whatever the audio result is |
| ContentExtraction.AudioFallback | main.py:45-56 | without truthy subtitles the result is the audio text when truthy, else nothing |
| ContentExtraction.NothingExactlyWhenBothFalsy | main.py:38-56 | nothing comes back exactly when neither input is truthy |
| ContentExtraction.ExtractFromSources | main.py:38-56 | the extracted text is non-empty with no whitespace at either end, and extraction fails exactly when neither the subtitles nor the transcript is truthy |
| ContentExtraction.EmptyCaptionsFallBack | main.py:38-50 | a caption file that cleans to "" counts as no subtitles, and the transcript decides |
| Conversation.PresetQuestionsDistinct | main.py:290-324 | the three quick-question buttons ask three different questions |
| Conversation.SeedShape | main.py:134-146 | the seed is a system message followed by a user message that is the fixed prefix followed by the video text, and that text can be read back from it |
| Conversation.ConcatPrefix | main.py:188-191 | the text of the first i chunks is a prefix of the text of all chunks |
| Conversation.AccumulateStream | main.py:185-191 | the streamed answer is the concatenation of all chunks; the i-th write shows the first i+1 chunks and is a prefix of the answer |
| Conversation.Session.constructor | main.py:17-25 | a new session has no messages, no content, no flag and no history |
| Conversation.Session.InitializeWithContent | main.py:132-168 | the transcript is replaced by the seed, which is what the model is sent; a reply is appended, sets the flag and returns true; a failure returns false, keeps the seed and leaves the flag unchanged |
| Conversation.Session.GetAiResponseStreaming | main.py:170-205 | the question is appended and the whole transcript, seed first, is sent; a completed stream appends the concatenated chunks as the answer and returns it; a broken one returns the apology with only the question appended; each write is the text so far |
| Conversation.Session.Exchange | main.py:268-284 | one history entry (question, answer) is added after all earlier ones, and the transcript grows by the question and, on success, the answer |
| Conversation.Session.AskQuestion | main.py:268-284 | an empty question changes nothing and writes nothing; any other is one exchange: the answer (or the apology) is recorded in the history, and the i-th write to the page is the text of the first i+1 chunks |
| Conversation.Session.AskPreset | main.py:290-324 | a quick-question button is one exchange with its fixed question, with the history entry, the transcript and the growing page writes of an exchange |
| Conversation.Session.ClearAnalysis | main.py:234-241 | clearing unsets the flag, drops the content and empties both lists |
| Conversation.Session.LoadContent | main.py:221-228 | the text is stored and the model primed; a successful priming also empties the history |
| Conversation.Session.AnalyzeVideo | main.py:216-232 | without a URL, or when extraction yields nothing, nothing changes; otherwise the extracted text is stored and primed, and the history is emptied on success |
| Conversation.ReadyIffLoaded | main.py:244 | under the session invariant the question area is shown exactly when the flag is set |

## Left out

- The Streamlit page (titles, progress bars, spinners, forms, buttons, the history
  listing and the 500-character preview of lines 245-258) is display only. Each button
  is one method call. `st.rerun` and the re-execution of the script are not modelled.
- The `yt_dlp` downloads, the temporary directory and the search for the first
  `temp_subtitle*.vtt` or `temp_audio*` file (lines 60-80 and 90-105) are I/O. Their
  outcome is an input: the text of the caption file found, or `None`.
- Loading and running the `whisper` model (lines 109-113) is a foreign call. Its text
  is an input.
- The `ollama` chat calls (lines 150-155 and 179-189) are network calls. Their answers
  are the `PrimeReply` and `ChatStream` parameters.
- Exception messages and `st.error`/`st.warning` texts are display only. A failure
  counts only as the failure branch it selects.
- Python's `\d` also matches non-ASCII decimal digits; the model takes ASCII digits
  only. `\s` is modelled by its whole set, the `str.isspace` set.
- CaptionCleaner.RemoveCueTimings: its contract says only that the text does not grow.
  No "no timing line is left" property holds for line 124; TimingLineReforms,
  HourlessTimingKept and UnterminatedTimingKept show what stays.
- CaptionFileCleaned: proved for words of ASCII letters without 'W' and one cue of one
  line, not for every caption file.
- Conversation.Session.AskQuestion, Conversation.Session.AskPreset: require the
  question area to be shown (line 244: content loaded and present). The page offers
  these controls only then.
- Conversation.Session.ClearAnalysis: requires the flag. The Clear button appears only
  while it is set (line 234).
