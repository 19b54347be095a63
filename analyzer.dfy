/** The analysis pipeline object (CarRentalFeedbackAnalyzer): it holds the
    review table, attaches derived columns to it and keeps the results of
    the sentiment and feature stages for the summary. */
module Analyzer {
  import opened Wrappers
  import opened TextNormalizer
  import opened SentimentClassifier
  import opened Ranking
  import opened FeatureTagger
  import opened IssueFrequency
  import opened ReportSummary

  /** One row of the review table; a missing review_text cell is None. The
      date and location columns play no part in the analysis. */
  datatype Review = Review(customerId: string, text: Option<AsciiString>, rating: int)

  /** The review text as Python's str() renders the cell: a missing value
      becomes "nan". */
  function RawText(r: Review): (s: AsciiString)
    ensures r.text.None? ==> s == "nan"
    ensures r.text.Some? ==> s == r.text.value
  {
    match r.text
    case None => "nan"
    case Some(t) => t
  }

  function RawTexts(rs: seq<Review>): (texts: seq<AsciiString>)
    ensures |texts| == |rs|
    ensures forall i :: 0 <= i < |rs| ==> texts[i] == RawText(rs[i])
  {
    seq(|rs|, i requires 0 <= i < |rs| => RawText(rs[i]))
  }

  /** The normalised text of every review, in review order. */
  function NormalizedTexts(rs: seq<Review>): (texts: seq<string>)
    ensures |texts| == |rs|
  {
    seq(|rs|, i requires 0 <= i < |rs| => Normalize(rs[i].text))
  }

  function Ratings(rs: seq<Review>): (ratings: seq<int>)
    ensures |ratings| == |rs|
  {
    seq(|rs|, i requires 0 <= i < |rs| => rs[i].rating)
  }

  /** The polarity column: the scorer applied to each review's text. */
  function PolarityColumn(rs: seq<Review>, score: string -> real): (polarities: seq<real>)
    ensures |polarities| == |rs|
  {
    seq(|rs|, i requires 0 <= i < |rs| => score(RawText(rs[i])))
  }

  /** The keyword matches of one normalised review, one list per category
      in taxonomy order. */
  method TagReview(processed: string) returns (row: seq<seq<string>>)
    ensures |row| == |Taxonomy|
    ensures forall c :: 0 <= c < |Taxonomy| ==> row[c] == Mentions(processed, Taxonomy[c].keywords)
  {
    row := [];
    for c := 0 to |Taxonomy|
      invariant |row| == c
      invariant forall d :: 0 <= d < c ==> row[d] == Mentions(processed, Taxonomy[d].keywords)
    {
      var mentions := MatchKeywords(processed, Taxonomy[c].keywords);
      row := row + [mentions];
    }
  }

  /** The review loop of the tagger: the mention table of all reviews. */
  method TagReviews(rs: seq<Review>) returns (table: seq<seq<seq<string>>>)
    ensures table == MentionTable(NormalizedTexts(rs), Taxonomy)
  {
    ghost var texts := NormalizedTexts(rs);
    table := seq(|Taxonomy|, c => []);
    for idx := 0 to |rs|
      invariant |table| == |Taxonomy|
      invariant forall c :: 0 <= c < |Taxonomy| ==> |table[c]| == idx
      invariant forall c, i :: 0 <= c < |Taxonomy| && 0 <= i < idx ==>
                  table[c][i] == Mentions(texts[i], Taxonomy[c].keywords)
    {
      var processed := Normalize(rs[idx].text);
      assert processed == texts[idx];
      var row := TagReview(processed);
      var next := seq(|Taxonomy|, c requires 0 <= c < |Taxonomy| => table[c] + [row[c]]);
      forall c, i | 0 <= c < |Taxonomy| && 0 <= i <= idx
        ensures next[c][i] == Mentions(texts[i], Taxonomy[c].keywords)
      {
        assert next[c] == table[c] + [row[c]];
        if i < idx {
          assert next[c][i] == table[c][i];
        } else {
          assert next[c][i] == row[c] == Mentions(processed, Taxonomy[c].keywords);
        }
      }
      table := next;
    }
    forall c | 0 <= c < |Taxonomy| ensures table[c] == MentionColumn(texts, Taxonomy[c].keywords) {
    }
  }

  /** The per-category figures of a mention table. */
  method CategoryTotals(table: seq<seq<seq<string>>>) returns (stats: seq<CategoryStats>)
    requires |table| == |Taxonomy|
    ensures |stats| == |Taxonomy|
    ensures forall c :: 0 <= c < |Taxonomy| ==>
              stats[c] == CategoryStats(Taxonomy[c].name, TotalMentions(table[c]), ReviewsMentioning(table[c]))
  {
    stats := [];
    for c := 0 to |Taxonomy|
      invariant |stats| == c
      invariant forall d :: 0 <= d < c ==>
                  stats[d] == CategoryStats(Taxonomy[d].name, TotalMentions(table[d]), ReviewsMentioning(table[d]))
    {
      var counts := table[c];
      stats := stats + [CategoryStats(Taxonomy[c].name, TotalMentions(counts), ReviewsMentioning(counts))];
    }
  }

  class FeedbackAnalyzer {
    /** The loaded review table, None before any load. */
    var reviews: Option<seq<Review>>
    /** Derived columns of the table: polarity, sentiment, and one mentions
        column per category in taxonomy order (each review's mention count is
        the length of its mentions list). */
    var polarityColumn: Option<seq<real>>
    var sentimentColumn: Option<seq<Sentiment>>
    var mentionColumns: Option<seq<seq<seq<string>>>>
    /** Results of the two analysis stages. */
    var sentimentResults: Option<SentimentStats>
    var featureResults: Option<seq<CategoryStats>>

    /** Derived columns belong to the loaded table: the sentiment column is
        the classification of the polarity column, and the mention columns
        are the keyword matches of the normalised texts. Feature results hold
        one entry per category. */
    ghost predicate Valid()
      reads this
    {
      && (polarityColumn.Some? ==> reviews.Some? && |polarityColumn.value| == |reviews.value|)
      && sentimentColumn == (if polarityColumn.Some? then Some(Labels(polarityColumn.value)) else None)
      && (mentionColumns.Some? ==>
            reviews.Some? && mentionColumns.value == MentionTable(NormalizedTexts(reviews.value), Taxonomy))
      && (featureResults.Some? ==> |featureResults.value| == |Taxonomy|)
    }

    constructor ()
      ensures Valid()
      ensures reviews.None? && sentimentResults.None? && featureResults.None?
      ensures polarityColumn.None? && mentionColumns.None?
    {
      reviews := None;
      polarityColumn, sentimentColumn, mentionColumns := None, None, None;
      sentimentResults, featureResults := None, None;
    }

    /** The state change of a successful load: a new table without derived
        columns; results of earlier stages are kept. */
    method Load(table: seq<Review>)
      requires Valid()
      modifies this
      ensures Valid()
      ensures reviews == Some(table)
      ensures polarityColumn.None? && mentionColumns.None?
      ensures sentimentResults == old(sentimentResults) && featureResults == old(featureResults)
    {
      reviews := Some(table);
      polarityColumn, sentimentColumn, mentionColumns := None, None, None;
    }

    /** analyze_sentiment: score and label every review, attach the polarity
        and sentiment columns and record the three label counts. */
    method AnalyzeSentiment(score: string -> real) returns (result: Option<SentimentStats>)
      requires Valid()
      modifies this
      ensures Valid()
      ensures reviews == old(reviews) && mentionColumns == old(mentionColumns)
      ensures featureResults == old(featureResults)
      ensures reviews.None? ==> result.None? && unchanged(this)
      ensures reviews.Some? ==>
        && polarityColumn == Some(PolarityColumn(reviews.value, score))
        && sentimentColumn == Some(Labels(polarityColumn.value))
        && sentimentResults == Some(Tallies(sentimentColumn.value))
        && result == sentimentResults
        && result.value.positiveCount + result.value.negativeCount + result.value.neutralCount
           == |reviews.value|
    {
      if reviews.None? {
        return None;
      }
      var rs := reviews.value;
      var sentiments: seq<Sentiment> := [];
      var polarities: seq<real> := [];
      for i := 0 to |rs|
        invariant |polarities| == |sentiments| == i
        invariant forall k :: 0 <= k < i ==> polarities[k] == score(RawText(rs[k]))
        invariant forall k :: 0 <= k < i ==> sentiments[k] == Classify(polarities[k])
      {
        var polarity := score(RawText(rs[i]));
        var sentiment := Classify(polarity);
        sentiments := sentiments + [sentiment];
        polarities := polarities + [polarity];
      }
      assert polarities == PolarityColumn(rs, score);
      assert sentiments == Labels(polarities);
      polarityColumn := Some(polarities);
      sentimentColumn := Some(sentiments);
      sentimentResults := Some(Tallies(sentiments));
      result := sentimentResults;
    }

    /** extract_features: for every review and category collect the matching
        keywords, attach the mention columns, and record each category's
        total mentions and number of reviews mentioning it. */
    method ExtractFeatures() returns (result: Option<seq<CategoryStats>>)
      requires Valid()
      modifies this
      ensures Valid()
      ensures reviews == old(reviews) && polarityColumn == old(polarityColumn)
      ensures sentimentColumn == old(sentimentColumn) && sentimentResults == old(sentimentResults)
      ensures reviews.None? ==> result.None? && unchanged(this)
      ensures reviews.Some? ==>
        && mentionColumns == Some(MentionTable(NormalizedTexts(reviews.value), Taxonomy))
        && featureResults == Some(FeatureTable(NormalizedTexts(reviews.value), Taxonomy))
        && result == featureResults
    {
      if reviews.None? {
        return None;
      }
      var rs := reviews.value;
      var table := TagReviews(rs);
      var stats := CategoryTotals(table);
      ghost var texts := NormalizedTexts(rs);
      assert stats == FeatureTable(texts, Taxonomy) by {
        forall c | 0 <= c < |Taxonomy| ensures stats[c] == CategoryFigures(texts, Taxonomy[c]) {
          assert table[c] == MentionColumn(texts, Taxonomy[c].keywords);
        }
      }
      mentionColumns := Some(table);
      featureResults := Some(stats);
      result := featureResults;
    }

    /** identify_common_issues(top_n): the most frequent counted terms of the
        reviews labelled Negative. */
    method IdentifyCommonIssues(topN: int) returns (result: Option<seq<Entry>>)
      requires Valid()
      requires reviews.Some? ==> sentimentColumn.Some?
      ensures result.None? <==> reviews.None?
      ensures result.Some? ==>
        && result.value == CommonIssues(NegativeTexts(RawTexts(reviews.value), sentimentColumn.value), topN)
        && |result.value|
           == TopCount(topN, |FirstOccurrences(IssueTerms(NegativeTexts(RawTexts(reviews.value), sentimentColumn.value)))|)
        && SortedByCountDesc(result.value)
        && (forall i :: 0 <= i < |result.value| ==> IsIssueTerm(result.value[i].0))
        && (Negative !in sentimentColumn.value ==> result.value == [])
    {
      if reviews.None? {
        return None;
      }
      var negatives := NegativeTexts(RawTexts(reviews.value), sentimentColumn.value);
      CommonIssuesSpec(negatives, topN);
      if Negative !in sentimentColumn.value {
        NoNegativeNoIssues(RawTexts(reviews.value), sentimentColumn.value, topN);
      }
      result := Some(CommonIssues(negatives, topN));
    }

    /** generate_performance_summary: None unless a table is loaded and the
        sentiment stage has run. The source divides by the number of reviews
        and reads the feature results and the sentiment column without
        checking them, so those are required here. */
    method GeneratePerformanceSummary() returns (result: Option<Summary>)
      requires Valid()
      requires reviews.Some? && sentimentResults.Some? ==>
        |reviews.value| > 0 && sentimentColumn.Some? && featureResults.Some?
      ensures result.None? <==> reviews.None? || sentimentResults.None?
      ensures result.Some? ==>
        && result.value.totalReviews == |reviews.value|
        && result.value.ratingDistribution == RatingHistogram(Ratings(reviews.value))
        && CountSum(result.value.ratingDistribution) == result.value.totalReviews
        && StrictlyAscending(result.value.ratingDistribution)
        && result.value.topIssues
           == CommonIssues(NegativeTexts(RawTexts(reviews.value), sentimentColumn.value), 5)
        && |result.value.topIssues|
           == TopCount(5, |FirstOccurrences(IssueTerms(NegativeTexts(RawTexts(reviews.value), sentimentColumn.value)))|)
        && result.value.mostMentionedFeatures == MostMentioned(featureResults.value)
        && |result.value.mostMentionedFeatures| == 5
        && SortedByCountDesc(result.value.mostMentionedFeatures)
        && result.value.featureAnalysis == featureResults.value
    {
      if reviews.None? || sentimentResults.None? {
        return None;
      }
      var rs := reviews.value;
      var histogram := RatingHistogram(Ratings(rs));
      var issues := IdentifyCommonIssues(10);
      var topIssues := Take(issues.value, 5);
      var negatives := NegativeTexts(RawTexts(rs), sentimentColumn.value);
      TopFiveOfTopTen(IssueTerms(negatives));
      CommonIssuesSpec(negatives, 5);
      var ranked := SortByCountDesc(FeaturePairs(featureResults.value));
      MostMentionedSpec(featureResults.value);
      result := Some(Summary(|rs|, histogram, topIssues, Take(ranked, 5), featureResults.value));
    }
  }
}
