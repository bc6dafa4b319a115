/**
 * Sentiment labelling: `analyze_sentiment` takes the polarity score the
 * TextBlob library computes for the text and labels it by its sign. The
 * score itself is an input here (a function from text to a real number).
 */
module Sentiment {

  datatype Label = Positive | Negative | Neutral

  /** The label depends on the sign of the score only. */
  function LabelOf(polarity: real): (sentiment: Label)
    ensures sentiment == Positive <==> polarity > 0.0
    ensures sentiment == Negative <==> polarity < 0.0
    ensures sentiment == Neutral <==> polarity == 0.0
  {
    if polarity > 0.0 then Positive else if polarity < 0.0 then Negative else Neutral
  }

  /** `analyze_sentiment`: the label and the score it was read from. */
  function AnalyzeSentiment(text: string, polarity: string -> real): (result: (Label, real))
    ensures result.1 == polarity(text)
    ensures result.0 == LabelOf(result.1)
  {
    var score := polarity(text);
    (LabelOf(score), score)
  }
}
