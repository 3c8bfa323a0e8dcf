/** pipelines/sentiment_pipeline.py: enriches each input comment with the
    classifier's sentiment and a topic word asked of the language model.
    `classify` is the sentiment classifier, which may raise, `generate` is
    `GeminiClient.generate_content` (which answers "" when the call fails) and
    `topicPrompt` is `TOPIC_EXTRACTION_PROMPT.format(comment=...)`. */
module SentimentPipeline {
  import opened PyValues
  import opened PyText
  import opened SentimentModel

  /** The dictionary `process_comment` returns; keys the input lacks
      (`platform`, `date`) are `None`. */
  datatype Processed = Processed(
    id: Json, text: string, sentiment: Sentiment, topic: string, platform: Json, date: Json)

  /** The topic clean-up: strip, lower-case, drop both kinds of quote and keep
      the first line, `split('\n')[0]`. */
  function CleanTopic(response: string): string
  {
    SplitOn(Unquoted(response), '\n')[0]
  }

  /** The answer stripped, lower-cased and without quotes. */
  function Unquoted(response: string): string
  {
    RemoveChar(RemoveChar(Lower(Strip(response)), '"'), '\'')
  }

  /** The cleaned topic is the first line of the stripped, lower-cased answer
      with its quotes taken out. */
  lemma CleanTopicIsFirstLine(response: string)
    ensures CleanTopic(response) <= Unquoted(response) && '\n' !in CleanTopic(response)
    ensures |CleanTopic(response)| < |Unquoted(response)| ==> Unquoted(response)[|CleanTopic(response)|] == '\n'
  {
    SplitHeadIsPrefix(Unquoted(response), '\n');
  }

  /** Every character of the cleaned topic comes from the lower-cased answer
      and is neither kind of quote. */
  lemma CleanTopicChars(response: string, i: int)
    requires 0 <= i < |CleanTopic(response)|
    ensures CleanTopic(response)[i] in Lower(Strip(response))
    ensures CleanTopic(response)[i] != '"' && CleanTopic(response)[i] != '\''
  {
    var lowered := Lower(Strip(response));
    var once := RemoveChar(lowered, '"');
    var unquoted := RemoveChar(once, '\'');
    CleanTopicIsFirstLine(response);
    var c := CleanTopic(response)[i];
    assert c == unquoted[i];
    assert c in unquoted;
    assert c in once;
  }

  /** The cleaned topic holds no quote of either kind and no line break. */
  lemma CleanTopicHasNoQuotes(response: string)
    ensures '"' !in CleanTopic(response) && '\'' !in CleanTopic(response) && '\n' !in CleanTopic(response)
  {
    var t := CleanTopic(response);
    if '"' in t || '\'' in t {
      var i :| 0 <= i < |t| && (t[i] == '"' || t[i] == '\'');
      CleanTopicChars(response, i);
    }
  }

  /** A failed model call answers "", which gives the empty topic rather than
      an error. */
  lemma EmptyAnswerEmptyTopic()
    ensures CleanTopic("") == ""
  {
    assert Strip("") == "";
    assert Unquoted("") == "";
  }

  /** A cleaned topic holds no capital ASCII letter. */
  lemma CleanTopicIsLowerCase(response: string, i: int)
    requires 0 <= i < |CleanTopic(response)|
    ensures !('A' <= CleanTopic(response)[i] <= 'Z')
  {
    CleanTopicChars(response, i);
    var c := CleanTopic(response)[i];
    var lowered := Lower(Strip(response));
    var k :| 0 <= k < |lowered| && lowered[k] == c;
  }

  /** The collaborators a `SentimentPipeline` holds: the classifier,
      `GeminiClient.generate_content` and the topic prompt template. */
  datatype Services = Services(
    classify: string -> Result<Prediction>, generate: string -> string, topicPrompt: string -> string)

  /** `process_comment(comment)`: reading `comment['text']` raises `KeyError`
      when it is missing; a text that is not a string cannot be handed to the
      classifier; an exception of the classifier escapes; reading
      `comment['id']` raises `KeyError` when missing. */
  function ProcessComment(comment: map<string, Json>, svc: Services): Result<Processed>
  {
    if "text" !in comment then Raised(KeyError("text"))
    else if !comment["text"].JStr? then Raised(TypeError)
    else
      var text := comment["text"].s;
      match Analyze(text, svc.classify)
      case Raised(e) => Raised(e)
      case Ok(sentiment) =>
        var topic := CleanTopic(svc.generate(svc.topicPrompt(text)));
        if "id" !in comment then Raised(KeyError("id"))
        else Ok(Processed(comment["id"], text, sentiment, topic,
                          PyValues.Get(comment, "platform", JNull), PyValues.Get(comment, "date", JNull)))
  }

  /** Which comments raise, and which exception; a processed record copies
      `id` and `text`, takes `platform` and `date` when present (`None`
      otherwise), and holds the analysis of the text and the cleaned topic
      of the model's answer. */
  lemma ProcessCommentCases(comment: map<string, Json>, svc: Services)
    ensures var r := ProcessComment(comment, svc);
      && (r.Ok? <==> && "text" in comment && comment["text"].JStr?
                     && Analyze(comment["text"].s, svc.classify).Ok? && "id" in comment)
      && ("text" !in comment ==> r == Raised(KeyError("text")))
      && ("text" in comment && !comment["text"].JStr? ==> r == Raised(TypeError))
      && ("text" in comment && comment["text"].JStr? && Analyze(comment["text"].s, svc.classify).Raised? ==>
            r == Raised(Analyze(comment["text"].s, svc.classify).error))
      && ("text" in comment && comment["text"].JStr? && Analyze(comment["text"].s, svc.classify).Ok? && "id" !in comment ==>
            r == Raised(KeyError("id")))
      && (r.Ok? ==>
            && r.value.id == comment["id"]
            && r.value.text == comment["text"].s
            && r.value.platform == (if "platform" in comment then comment["platform"] else JNull)
            && r.value.date == (if "date" in comment then comment["date"] else JNull)
            && r.value.sentiment == Analyze(comment["text"].s, svc.classify).value
            && r.value.topic == CleanTopic(svc.generate(svc.topicPrompt(comment["text"].s))))
  {
  }

  /** The step `run` takes for each comment. */
  function Step(svc: Services): map<string, Json> -> Result<Processed>
  {
    c => ProcessComment(c, svc)
  }

  /** `run(comments)`: processes the comments in order; the first comment that
      raises ends the run with that exception. */
  method Run(comments: seq<map<string, Json>>, svc: Services) returns (r: Result<seq<Processed>>)
    ensures r == MapRaising(comments, Step(svc))
  {
    var processed: seq<Processed> := [];
    var i := 0;
    while i < |comments|
      invariant 0 <= i <= |comments|
      invariant MapRaising(comments[..i], Step(svc)) == Ok(processed)
    {
      var one := ProcessComment(comments[i], svc);
      assert comments[..i + 1][..i] == comments[..i];
      if one.Raised? {
        assert MapRaising(comments[..i + 1], Step(svc)) == Raised(one.error);
        MapRaisingStopsAtError(comments, i + 1, Step(svc));
        return Raised(one.error);
      }
      processed := processed + [one.value];
      i := i + 1;
    }
    assert comments[..i] == comments;
    r := Ok(processed);
  }
}
