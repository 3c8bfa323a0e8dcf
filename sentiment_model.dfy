/** models/sentiment_model.py: one classifier call per text, turned into a
    label, a signed score and a confidence. The classifier itself is the
    parameter `classify`: for a text it gives the top label and its score,
    or the exception the classifier raises (`ClassifierError`), since
    `analyze` does not catch anything. */
module SentimentModel {
  import opened PyValues
  import opened PyText

  /** `self.pipeline(text)[0]`: the classifier's top label and its score. */
  datatype Prediction = Prediction(labelText: string, score: real)

  /** The dictionary `analyze` returns. */
  datatype Sentiment = Sentiment(labelText: string, score: real, confidence: real)

  /** Longest text prefix handed to the classifier. */
  const MaxInputChars: nat := 512

  /** `self.label_map`. */
  const LabelMap: map<string, real> := map[
    "negative" := -1.0, "neutral" := 0.0, "positive" := 1.0,
    "LABEL_0" := -1.0, "LABEL_1" := 0.0, "LABEL_2" := 1.0]

  /** `text[:512]`. */
  function Truncate(text: string): (r: string)
    ensures |r| == if |text| < MaxInputChars then |text| else MaxInputChars
    ensures r <= text
  {
    if |text| <= MaxInputChars then text else text[..MaxInputChars]
  }

  /** `self.label_map.get(label, 0.0)`. */
  function Polarity(key: string): (p: real)
    ensures p == -1.0 || p == 0.0 || p == 1.0
  {
    if key in LabelMap then LabelMap[key] else 0.0
  }

  /** `analyze(text)`: both numbers are rounded to three decimals; an
      exception of the classifier call escapes. */
  function Analyze(text: string, classify: string -> Result<Prediction>): Result<Sentiment>
  {
    match classify(Truncate(text))
    case Raised(e) => Raised(e)
    case Ok(raw) => Ok(FromPrediction(raw))
  }

  /** The label, signed score and confidence made from the classifier's answer. */
  function FromPrediction(raw: Prediction): Sentiment
  {
    var lowered := Lower(raw.labelText);
    Sentiment(lowered, Round3(Signed(Polarity(lowered), raw.score)), Round3(raw.score))
  }

  /** `sentiment_val * result['score']`. */
  function Signed(polarity: real, confidence: real): (r: real)
    ensures polarity == 1.0 ==> r == confidence
    ensures polarity == -1.0 ==> r == -confidence
    ensures polarity == 0.0 ==> r == 0.0
  {
    polarity * confidence
  }

  /** The classifier sees only the first 512 characters, so texts that agree
      on them get the same analysis; the analysis raises exactly when the
      classifier does, with its exception; otherwise the label is the
      classifier's, in lower case, and the confidence is its score rounded. */
  lemma AnalyzeUsesPrefix(t: string, u: string, classify: string -> Result<Prediction>)
    requires Truncate(t) == Truncate(u)
    ensures Analyze(t, classify) == Analyze(u, classify)
    ensures Analyze(t, classify).Ok? <==> classify(Truncate(t)).Ok?
    ensures classify(Truncate(t)).Raised? ==> Analyze(t, classify) == Raised(classify(Truncate(t)).error)
    ensures Analyze(t, classify).Ok? ==>
      && Analyze(t, classify).value.labelText == Lower(classify(Truncate(t)).value.labelText)
      && Analyze(t, classify).value.confidence == Round3(classify(Truncate(t)).value.score)
  {
  }

  /** Long texts are cut to their 512-character prefix. */
  lemma TruncateKeepsPrefix(text: string)
    ensures |text| <= MaxInputChars ==> Truncate(text) == text
    ensures |text| > MaxInputChars ==> Truncate(text) == text[..MaxInputChars]
  {
  }

  /** A lower-cased label holds no capital letter. */
  lemma LowerHasNoCapitals(s: string, i: int)
    requires 0 <= i < |s|
    ensures !('A' <= Lower(s)[i] <= 'Z')
  {
  }

  /** Lookup happens after lower-casing, so the `LABEL_0`, `LABEL_1` and
      `LABEL_2` keys can never match: such a label has polarity 0. */
  lemma UpperCaseKeysUnreachable(raw: string)
    ensures Lower(raw) != "LABEL_0" && Lower(raw) != "LABEL_1" && Lower(raw) != "LABEL_2"
    ensures raw == "LABEL_0" || raw == "LABEL_1" || raw == "LABEL_2" ==> Polarity(Lower(raw)) == 0.0
  {
    if |raw| == 7 {
      LowerHasNoCapitals(raw, 0);
      assert Lower(raw)[0] != "LABEL_0"[0];
    }
    if raw == "LABEL_0" || raw == "LABEL_1" || raw == "LABEL_2" {
      var l := Lower(raw);
      assert l[0] == 'l' && l[1] == 'a' && |l| == 7;
      assert l !in LabelMap by {
        assert l != "negative" && l != "neutral" && l != "positive";
        assert l != "LABEL_0" && l != "LABEL_1" && l != "LABEL_2";
      }
    }
  }

  /** Which lower-cased labels give which polarity: negative gives -1,
      positive gives 1, everything else (neutral or unknown) gives 0. */
  lemma PolarityCases(raw: string)
    ensures Polarity(Lower(raw)) == -1.0 <==> Lower(raw) == "negative"
    ensures Polarity(Lower(raw)) == 1.0 <==> Lower(raw) == "positive"
    ensures Polarity(Lower(raw)) == 0.0 <==> Lower(raw) != "negative" && Lower(raw) != "positive"
  {
    UpperCaseKeysUnreachable(raw);
  }

  /** The score is the polarity times the confidence: it is 0 for a label of
      polarity 0, and for a positive confidence its sign is the label's.
      Rounding keeps this exact, since halves round to the even neighbour. */
  lemma ScoreFollowsLabel(text: string, classify: string -> Result<Prediction>)
    ensures Analyze(text, classify).Ok? ==> var r := Analyze(text, classify).value;
      && (r.labelText != "negative" && r.labelText != "positive" ==> r.score == 0.0)
      && (r.labelText == "negative" ==> r.score == -r.confidence)
      && (r.labelText == "positive" ==> r.score == r.confidence)
      && (r.confidence > 0.0 ==> (r.score < 0.0 <==> r.labelText == "negative"))
      && (r.confidence > 0.0 ==> (r.score > 0.0 <==> r.labelText == "positive"))
  {
    if classify(Truncate(text)).Ok? {
      var raw := classify(Truncate(text)).value;
      PolarityCases(raw.labelText);
      Round3Negate(raw.score);
      ThousandthsExact(0);
      assert 0.0 / 1000.0 == 0.0;
      assert Round3(0.0) == 0.0;
    }
  }

  /** A classifier whose scores lie in [0, 1] gives sentiment scores in [-1, 1]
      and confidences in [0, 1]. */
  lemma ScoreInRange(text: string, classify: string -> Result<Prediction>)
    requires classify(Truncate(text)).Ok? ==> 0.0 <= classify(Truncate(text)).value.score <= 1.0
    ensures Analyze(text, classify).Ok? ==> -1.0 <= Analyze(text, classify).value.score <= 1.0
    ensures Analyze(text, classify).Ok? ==> 0.0 <= Analyze(text, classify).value.confidence <= 1.0
  {
    if classify(Truncate(text)).Ok? {
      SignedScoreInRange(classify(Truncate(text)).value);
      ConfidenceInRange(classify(Truncate(text)).value);
    }
  }

  /** The signed score of one classifier answer lies in [-1, 1]. */
  lemma SignedScoreInRange(raw: Prediction)
    requires 0.0 <= raw.score <= 1.0
    ensures -1.0 <= FromPrediction(raw).score <= 1.0
  {
    var l := Lower(raw.labelText);
    var q := Signed(Polarity(l), raw.score);
    assert FromPrediction(raw).score == Round3(q);
    Round3WithinUnit(q);
  }

  /** The confidence of one classifier answer lies in [0, 1]. */
  lemma ConfidenceInRange(raw: Prediction)
    requires 0.0 <= raw.score <= 1.0
    ensures 0.0 <= FromPrediction(raw).confidence <= 1.0
  {
    Round3UnitInterval(raw.score);
    assert FromPrediction(raw).confidence == Round3(raw.score);
  }

}
