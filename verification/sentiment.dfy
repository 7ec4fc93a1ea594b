/** The label-to-score mapping of `get_sentiment_score`.  The sentiment
    model itself is foreign: it is passed in as a function from text to the
    label it gives. */
module Sentiment {
  import opened Text

  /** The three values a score can take. */
  predicate IsScore(x: real) {
    x == 1.0 || x == 0.0 || x == -1.0
  }

  /** Label to score: "positive" is 1.0, "negative" is -1.0, every other
      label (including "neutral") is 0.0. */
  function LabelScore(name: string): (score: real)
    ensures IsScore(score)
    ensures score > 0.0 <==> name == "positive"
    ensures score < 0.0 <==> name == "negative"
  {
    if name == "positive" then 1.0
    else if name == "negative" then -1.0
    else 0.0
  }

  /** `get_sentiment_score(text, pipeline)`: the label the model gives for
      `str(text)`, mapped to a score.  The model's failures are not caught
      by the source, so no failure path exists here. */
  function SentimentScore(text: Cell, model: string -> string): (score: real)
    ensures IsScore(score)
    ensures score == 1.0 <==> model(AsString(text)) == "positive"
    ensures score == -1.0 <==> model(AsString(text)) == "negative"
    ensures score == 0.0 <==> model(AsString(text)) != "positive" && model(AsString(text)) != "negative"
  {
    LabelScore(model(AsString(text)))
  }
}
