/** Where the analysed text comes from: the cleaned English captions of the video
    when there are any, otherwise the speech transcript of its audio. The downloads
    and the speech recogniser are outside the model; their results are inputs. */
module ContentExtraction {
  import opened Wrappers
  import opened CaptionCleaner

  /** Python truthiness of an optional string: present and not empty. */
  predicate Truthy(o: Option<string>) {
    o.Some? && o.value != ""
  }

  /** `get_subtitles` once the download is done: `captionFile` is the text of the
      first caption file found, or None when there was none or the download failed.
      A file found is always cleaned. */
  function Subtitles(captionFile: Option<string>): (r: Option<string>)
    ensures r.Some? <==> captionFile.Some?
    ensures r.Some? ==> |r.value| <= |captionFile.value|
    ensures r.Some? ==> forall k :: 0 <= k < |r.value| ==> r.value[k] != '\n'
    ensures r.Some? ==> Collapsed(r.value)
    ensures r.Some? && r.value != [] ==> !IsSpace(r.value[0]) && !IsSpace(r.value[|r.value| - 1])
  {
    match captionFile
    case None => None
    case Some(vtt) => CleanIsOneLine(vtt); Some(Clean(vtt))
  }

  /** `transcribe_audio` once the recogniser has run: `recognised` is its text, or
      None when no audio was found or a step failed. A text is stripped. */
  function Transcript(recognised: Option<string>): (r: Option<string>)
    ensures r.Some? <==> recognised.Some?
    ensures r.Some? ==> exists a :: Trimming(recognised.value, a, r.value)
    ensures r.Some? && r.value != [] ==> !IsSpace(r.value[0]) && !IsSpace(r.value[|r.value| - 1])
  {
    match recognised
    case None => None
    case Some(text) => Some(Strip(text))
  }

  /** The decision of `extract_youtube_content`: the subtitle text when it is truthy,
      else the audio text when that is truthy, else nothing. */
  function ChooseContent(subtitleText: Option<string>, audioText: Option<string>): (r: Option<string>)
    ensures r.None? || Truthy(r)
    ensures r.Some? ==> r == subtitleText || r == audioText
  {
    if Truthy(subtitleText) then subtitleText
    else if Truthy(audioText) then audioText
    else None
  }

  /** Subtitles win whenever they are truthy: the audio result is then never looked at. */
  lemma SubtitlesPreferred(subtitleText: Option<string>, audioText: Option<string>, otherAudio: Option<string>)
    requires Truthy(subtitleText)
    ensures ChooseContent(subtitleText, audioText) == subtitleText
    ensures ChooseContent(subtitleText, audioText) == ChooseContent(subtitleText, otherAudio)
  {
  }

  /** Without truthy subtitles the audio text decides, and nothing comes back exactly
      when neither is truthy. */
  lemma AudioFallback(subtitleText: Option<string>, audioText: Option<string>)
    requires !Truthy(subtitleText)
    ensures ChooseContent(subtitleText, audioText) == (if Truthy(audioText) then audioText else None)
  {
  }

  lemma NothingExactlyWhenBothFalsy(subtitleText: Option<string>, audioText: Option<string>)
    ensures ChooseContent(subtitleText, audioText).None? <==> !Truthy(subtitleText) && !Truthy(audioText)
  {
  }

  /** The whole extraction from the two raw inputs. Whatever comes back is a non-empty
      text with no whitespace at either end. */
  function ExtractFromSources(captionFile: Option<string>, recognised: Option<string>): (r: Option<string>)
    ensures r.Some? ==> r.value != [] && !IsSpace(r.value[0]) && !IsSpace(r.value[|r.value| - 1])
    ensures r.None? <==> !Truthy(Subtitles(captionFile)) && !Truthy(Transcript(recognised))
  {
    var subtitleText := Subtitles(captionFile);
    var audioText := Transcript(recognised);
    NothingExactlyWhenBothFalsy(subtitleText, audioText);
    ChooseContent(subtitleText, audioText)
  }

  /** A caption file that cleans to nothing (only headers, timings and markup) counts
      as no subtitles: the transcript is used instead. */
  lemma EmptyCaptionsFallBack(vtt: string, recognised: Option<string>)
    requires Clean(vtt) == ""
    ensures ExtractFromSources(Some(vtt), recognised)
         == (if Truthy(Transcript(recognised)) then Transcript(recognised) else None)
  {
  }
}
