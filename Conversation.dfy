/** The chat session kept between page runs: the transcript sent to the language
    model, the analysed video text, the "content loaded" flag and the question/answer
    history shown on the page. The language model is an oracle whose answer is passed
    in: a reply or a failure when priming, and the chunks it streamed (and whether the
    stream finished) when asked a question. */
module Conversation {
  import opened Wrappers
  import opened ContentExtraction

  datatype Role = System | User | Assistant

  /** One `{"role": ..., "content": ...}` entry of the transcript. */
  datatype Message = Message(role: Role, content: string)

  /** The fixed system message that opens every transcript. */
  const Persona: string := "You are a YouTube video content assistant. Help users analyze video content, suggest topics, titles, thumbnails, and provide YouTube strategy advice."

  /** Put in front of the video text in the second message of the transcript. */
  const ContentPrefix: string := "Here is the YouTube content I want you to analyze and remember for our conversation: "

  /** The answer recorded when asking the model fails. */
  const Apology: string := "Sorry, I encountered an error processing your question."

  /** What the model answers to the priming request. */
  datatype PrimeReply = Reply(text: string) | PrimeFailure

  /** What the model streams for a question: the chunks delivered before the stream
      ended or broke off, and whether it ended normally. A failure of the call itself
      is a stream with no chunks that did not complete. */
  datatype ChatStream = ChatStream(chunks: seq<string>, completed: bool)

  /** The three quick-question buttons. */
  datatype Preset = Summary | Titles | Topics

  /** How a press of "Analyze Video" ended. */
  datatype AnalyzeOutcome = MissingUrl | ExtractionFailed | InitFailed | Analyzed

  /** The fixed question behind each quick-question button. */
  function PresetQuestion(p: Preset): (q: string)
    ensures q != ""
  {
    match p
    case Summary => "Provide a comprehensive summary of this video content"
    case Titles => "Suggest 5 better, engaging titles for this video content"
    case Topics => "What are the main topics and key points covered in this video?"
  }

  /** Each button asks its own question. */
  lemma PresetQuestionsDistinct(p: Preset, p': Preset)
    requires PresetQuestion(p) == PresetQuestion(p')
    ensures p == p'
  {
  }

  /** The two messages every priming request starts with. */
  function Seed(content: string): seq<Message> {
    [Message(System, Persona), Message(User, ContentPrefix + content)]
  }

  /** The seed opens with the system message, is followed only by a user message, and
      the video text can be read back from it. */
  lemma SeedShape(content: string)
    ensures |Seed(content)| == 2
    ensures Seed(content)[0].role == System && Seed(content)[1].role == User
    ensures Seed(content)[1].content[..|ContentPrefix|] == ContentPrefix
    ensures Seed(content)[1].content[|ContentPrefix|..] == content
    ensures forall other :: Seed(other) == Seed(content) ==> other == content
  {
    forall other | Seed(other) == Seed(content)
      ensures other == content
    {
      assert (ContentPrefix + other)[|ContentPrefix|..] == other;
      assert (ContentPrefix + content)[|ContentPrefix|..] == content;
    }
  }

  /** The text a stream of chunks adds up to. */
  function Concat(chunks: seq<string>): string {
    if chunks == [] then "" else Concat(chunks[..|chunks| - 1]) + chunks[|chunks| - 1]
  }

  /** The text of the first i chunks is a prefix of the text of all chunks. */
  lemma {:induction false} ConcatPrefix(chunks: seq<string>, i: nat)
    requires i <= |chunks|
    ensures Concat(chunks[..i]) <= Concat(chunks)
    decreases |chunks| - i
  {
    if i == |chunks| {
      assert chunks[..i] == chunks;
    } else {
      var init := chunks[..|chunks| - 1];
      ConcatPrefix(init, i);
      assert init[..i] == chunks[..i];
    }
  }

  /** The streaming loop: each chunk is added to the running answer and the whole
      answer so far is written to the page again. */
  method AccumulateStream(chunks: seq<string>) returns (full: string, writes: seq<string>)
    ensures full == Concat(chunks)
    ensures |writes| == |chunks|
    ensures forall i :: 0 <= i < |writes| ==> writes[i] == Concat(chunks[..i + 1])
    ensures forall i :: 0 <= i < |writes| ==> writes[i] <= full
  {
    full := "";
    writes := [];
    for i := 0 to |chunks|
      invariant full == Concat(chunks[..i])
      invariant |writes| == i
      invariant forall j :: 0 <= j < i ==> writes[j] == Concat(chunks[..j + 1])
    {
      assert chunks[..i + 1][..i] == chunks[..i];
      full := full + chunks[i];
      writes := writes + [full];
    }
    assert chunks[..|chunks|] == chunks;
    forall i | 0 <= i < |writes|
      ensures writes[i] <= full
    {
      ConcatPrefix(chunks, i + 1);
    }
  }

  /** No message after the first is a system message. */
  ghost predicate NoLaterSystem(m: seq<Message>) {
    forall i :: 1 <= i < |m| ==> m[i].role != System
  }

  class Session {
    var messages: seq<Message>
    var youtubeContent: Option<string>
    var contentLoaded: bool
    var chatHistory: seq<(string, string)>

    /** Only the first message can be a system message, and while content is loaded
        the transcript opens with the seed for the video text kept in the session. */
    ghost predicate Valid()
      reads this
    {
      && NoLaterSystem(messages)
      && (contentLoaded ==>
            Truthy(youtubeContent) && |messages| >= 2 && messages[..2] == Seed(youtubeContent.value))
    }

    /** The page shows the question area only when content is loaded and present. */
    predicate Ready()
      reads this
    {
      contentLoaded && Truthy(youtubeContent)
    }

    /** The session state a fresh browser session starts with. */
    constructor ()
      ensures messages == [] && youtubeContent == None && !contentLoaded && chatHistory == []
      ensures Valid()
    {
      messages := [];
      youtubeContent := None;
      contentLoaded := false;
      chatHistory := [];
    }

    /** `initialize_with_content`: the transcript is replaced by the seed, which is
        what the model is sent. A reply is appended and marks the content as loaded; on
        a failure the seed stays and the flag keeps its old value. */
    method InitializeWithContent(content: string, reply: PrimeReply) returns (ok: bool, request: seq<Message>)
      modifies this
      ensures request == Seed(content)
      ensures ok <==> reply.Reply?
      ensures reply.Reply? ==> messages == Seed(content) + [Message(Assistant, reply.text)] && contentLoaded
      ensures reply.PrimeFailure? ==> messages == Seed(content) && contentLoaded == old(contentLoaded)
      ensures youtubeContent == old(youtubeContent) && chatHistory == old(chatHistory)
      ensures youtubeContent == Some(content) && content != "" ==> Valid()
    {
      messages := [];
      messages := messages + [Message(System, Persona)];
      messages := messages + [Message(User, ContentPrefix + content)];
      request := messages;
      match reply {
        case Reply(text) =>
          messages := messages + [Message(Assistant, text)];
          contentLoaded := true;
          ok := true;
        case PrimeFailure =>
          ok := false;
      }
      assert messages[..2] == Seed(content);
    }

    /** `get_ai_response_streaming`: the question is appended and the whole transcript
        sent; the streamed answer is written to the page as it grows. A completed stream
        appends the answer and returns it; a broken one returns the apology and leaves
        only the question appended. */
    method GetAiResponseStreaming(question: string, stream: ChatStream)
      returns (response: string, request: seq<Message>, writes: seq<string>)
      requires Valid()
      modifies this
      ensures request == old(messages) + [Message(User, question)]
      ensures contentLoaded ==> youtubeContent.Some? && |request| >= 3 && request[..2] == Seed(youtubeContent.value)
      ensures stream.completed ==>
                response == Concat(stream.chunks) && messages == request + [Message(Assistant, response)]
      ensures !stream.completed ==> response == Apology && messages == request
      ensures |writes| == |stream.chunks|
      ensures forall i :: 0 <= i < |writes| ==> writes[i] == Concat(stream.chunks[..i + 1])
      ensures youtubeContent == old(youtubeContent) && contentLoaded == old(contentLoaded)
      ensures chatHistory == old(chatHistory)
      ensures Valid()
    {
      messages := messages + [Message(User, question)];
      request := messages;
      assert |old(messages)| >= 2 ==> request[..2] == old(messages)[..2];
      var full;
      full, writes := AccumulateStream(stream.chunks);
      if stream.completed {
        messages := messages + [Message(Assistant, full)];
        response := full;
      } else {
        response := Apology;
      }
      assert |old(messages)| >= 2 ==> messages[..2] == old(messages)[..2];
    }

    /** One question asked from the page: a pending (question, "") entry is added to
        the history, the model is asked, and that last entry is overwritten with the
        answer. */
    method Exchange(question: string, stream: ChatStream) returns (response: string, writes: seq<string>)
      requires Valid()
      modifies this
      ensures chatHistory == old(chatHistory) + [(question, response)]
      ensures response == (if stream.completed then Concat(stream.chunks) else Apology)
      ensures messages == old(messages) + [Message(User, question)]
                          + (if stream.completed then [Message(Assistant, response)] else [])
      ensures |writes| == |stream.chunks|
      ensures forall i :: 0 <= i < |writes| ==> writes[i] == Concat(stream.chunks[..i + 1])
      ensures youtubeContent == old(youtubeContent) && contentLoaded == old(contentLoaded)
      ensures Valid()
    {
      chatHistory := chatHistory + [(question, "")];
      var request;
      response, request, writes := GetAiResponseStreaming(question, stream);
      chatHistory := chatHistory[|chatHistory| - 1 := (question, response)];
    }

    /** The "Ask" form: an empty question does nothing; any other is an exchange. */
    method AskQuestion(question: string, stream: ChatStream) returns (response: Option<string>, writes: seq<string>)
      requires Valid() && Ready()
      modifies this
      ensures question == "" ==>
                response == None && writes == []
                && messages == old(messages) && chatHistory == old(chatHistory)
      ensures question != "" ==>
                response == Some(if stream.completed then Concat(stream.chunks) else Apology)
                && chatHistory == old(chatHistory) + [(question, response.value)]
                && messages == old(messages) + [Message(User, question)]
                               + (if stream.completed then [Message(Assistant, response.value)] else [])
      ensures question != "" ==>
                |writes| == |stream.chunks|
                && forall i :: 0 <= i < |writes| ==> writes[i] == Concat(stream.chunks[..i + 1])
      ensures youtubeContent == old(youtubeContent) && contentLoaded == old(contentLoaded)
      ensures Valid() && Ready()
    {
      if question == "" {
        response := None;
        writes := [];
      } else {
        var answer;
        answer, writes := Exchange(question, stream);
        response := Some(answer);
      }
    }

    /** A quick-question button: an exchange with its fixed question. */
    method AskPreset(preset: Preset, stream: ChatStream) returns (response: string, writes: seq<string>)
      requires Valid() && Ready()
      modifies this
      ensures response == (if stream.completed then Concat(stream.chunks) else Apology)
      ensures chatHistory == old(chatHistory) + [(PresetQuestion(preset), response)]
      ensures messages == old(messages) + [Message(User, PresetQuestion(preset))]
                          + (if stream.completed then [Message(Assistant, response)] else [])
      ensures |writes| == |stream.chunks|
      ensures forall i :: 0 <= i < |writes| ==> writes[i] == Concat(stream.chunks[..i + 1])
      ensures youtubeContent == old(youtubeContent) && contentLoaded == old(contentLoaded)
      ensures Valid() && Ready()
    {
      response, writes := Exchange(PresetQuestion(preset), stream);
    }

    /** The "Clear Analysis" button, shown only while content is loaded. */
    method ClearAnalysis()
      requires contentLoaded
      modifies this
      ensures !contentLoaded && youtubeContent == None && messages == [] && chatHistory == []
      ensures Valid()
    {
      contentLoaded := false;
      youtubeContent := None;
      messages := [];
      chatHistory := [];
    }

    /** An extracted text is kept in the session and the model primed with it; a
        successful priming also clears the history. */
    method LoadContent(content: string, reply: PrimeReply) returns (outcome: AnalyzeOutcome)
      requires Valid() && content != ""
      modifies this
      ensures youtubeContent == Some(content)
      ensures reply.Reply? ==>
                outcome == Analyzed && contentLoaded && chatHistory == []
                && messages == Seed(content) + [Message(Assistant, reply.text)]
      ensures reply.PrimeFailure? ==>
                outcome == InitFailed && contentLoaded == old(contentLoaded)
                && chatHistory == old(chatHistory) && messages == Seed(content)
      ensures Valid()
    {
      youtubeContent := Some(content);
      var ok, request := InitializeWithContent(content, reply);
      if ok {
        chatHistory := [];
        outcome := Analyzed;
      } else {
        outcome := InitFailed;
      }
    }

    /** The "Analyze Video" button. Without a URL nothing changes; when neither
        captions nor a transcript yield text nothing changes; otherwise the text is
        loaded. */
    method AnalyzeVideo(url: string, captionFile: Option<string>, recognised: Option<string>, reply: PrimeReply)
      returns (outcome: AnalyzeOutcome)
      requires Valid()
      modifies this
      ensures url == "" ==> outcome == MissingUrl
      ensures url != "" && ExtractFromSources(captionFile, recognised).None? ==> outcome == ExtractionFailed
      ensures url == "" || ExtractFromSources(captionFile, recognised).None? ==>
                messages == old(messages) && youtubeContent == old(youtubeContent)
                && contentLoaded == old(contentLoaded) && chatHistory == old(chatHistory)
      ensures url != "" && ExtractFromSources(captionFile, recognised).Some? ==>
                youtubeContent == ExtractFromSources(captionFile, recognised)
      ensures url != "" && ExtractFromSources(captionFile, recognised).Some? && reply.Reply? ==>
                outcome == Analyzed && contentLoaded && chatHistory == []
                && messages == Seed(youtubeContent.value) + [Message(Assistant, reply.text)]
      ensures url != "" && ExtractFromSources(captionFile, recognised).Some? && reply.PrimeFailure? ==>
                outcome == InitFailed && contentLoaded == old(contentLoaded)
                && chatHistory == old(chatHistory) && messages == Seed(youtubeContent.value)
      ensures Valid()
    {
      if url == "" {
        return MissingUrl;
      }
      var content := ExtractFromSources(captionFile, recognised);
      if content.None? {
        return ExtractionFailed;
      }
      outcome := LoadContent(content.value, reply);
    }
  }

  /** With the session invariant, the question area is shown exactly when the content
      flag is set. */
  lemma ReadyIffLoaded(s: Session)
    requires s.Valid()
    ensures s.Ready() <==> s.contentLoaded
  {
  }
}
