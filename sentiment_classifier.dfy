/** Sentiment labels from polarity scores (analyze_sentiment). The polarity
    scorer itself is a third-party library: the model receives its output. */
module SentimentClassifier {
  import opened Sequences


  datatype Sentiment = Positive | Negative | Neutral

  /** The exact value of the double-precision literal 0.1 that the source
      compares against; -0.1 is its exact negation. */
  const PositiveThreshold: real := 0.1000000000000000055511151231257827021181583404541015625
  const NegativeThreshold: real := -PositiveThreshold

  /** The fixed threshold band: above 0.1 Positive, below -0.1 Negative,
      Neutral in between (both ends included). */
  function Classify(polarity: real): (s: Sentiment)
    ensures s == Positive <==> polarity > PositiveThreshold
    ensures s == Negative <==> polarity < NegativeThreshold
    ensures s == Neutral <==> NegativeThreshold <= polarity <= PositiveThreshold
  {
    if polarity > PositiveThreshold then Positive
    else if polarity < NegativeThreshold then Negative
    else Neutral
  }

  /** The derived sentiment column: one label per polarity, same order. */
  function Labels(polarities: seq<real>): seq<Sentiment> {
    seq(|polarities|, i requires 0 <= i < |polarities| => Classify(polarities[i]))
  }

  /** The integer part of sentiment_results; the mean polarity and mean
      subjectivity are not modelled. */
  datatype SentimentStats = SentimentStats(positiveCount: nat, negativeCount: nat, neutralCount: nat)

  /** The three counts of sentiment_results; they add up to the number of
      reviews. */
  function Tallies(labels: seq<Sentiment>): (stats: SentimentStats)
    ensures stats.positiveCount + stats.negativeCount + stats.neutralCount == |labels|
  {
    CountsPartition(labels);
    SentimentStats(Count(labels, Positive), Count(labels, Negative), Count(labels, Neutral))
  }

  /** Every review has exactly one label, so the three counts add up to the
      number of reviews. */
  lemma {:induction false} CountsPartition(labels: seq<Sentiment>)
    ensures Count(labels, Positive) + Count(labels, Negative) + Count(labels, Neutral) == |labels|
  {
    if labels != [] {
      var n := |labels| - 1;
      CountsPartition(labels[..n]);
      forall kind ensures Count(labels, kind) == Count(labels[..n], kind) + if labels[n] == kind then 1 else 0 {
      }
    }
  }


}
