# Car rental feedback analyzer — verified model

This project models the analysis pipeline of `CarRentalFeedbackAnalyzer`.
The pipeline reads a table of customer reviews of a car rental service and
then works in stages:

- it labels each review Positive, Negative or Neutral from a polarity score
  and counts the labels;
- it normalises each review's text and tags it with the keywords it mentions
  from a fixed taxonomy of six service categories;
- it finds the most frequent content words of the negative reviews;
- it assembles a performance summary: the review count, the rating
  histogram, the top issues and the most mentioned categories.

The modules follow the stages:

| module | file | what it holds |
|---|---|---|
| `Wrappers` | `wrappers.dfy` | `Option`, the "missing" value of a cell or a result |
| `Sequences` | `sequences.dfy` | `Count`, the one counting function behind the sentiment counts, `Counter` and `value_counts`; `Distinct`; `IndexOf`; `Before`, the relative order of two elements |
| `TextNormalizer` | `text_normalizer.dfy` | `preprocess_text`: lower-casing, removing special characters, collapsing whitespace; whitespace splitting and joining |
| `SentimentClassifier` | `sentiment_classifier.dfy` | the polarity thresholds, the three labels and their counts |
| `Ranking` | `ranking.dfy` | the stable sort by count, largest first, and taking a prefix; this is how both `Counter.most_common` and the summary's `sorted(..., reverse=True)` order entries |
| `FeatureTagger` | `feature_tagger.dfy` | the category taxonomy, substring keyword matching, and the per-category totals |
| `IssueFrequency` | `issue_frequency.dfy` | the stop-word filter, the word counter and the most common issues of negative reviews |
| `ReportSummary` | `report_summary.dfy` | the rating histogram, the feature ranking and the summary record |
| `Analyzer` | `analyzer.dfy` | the analyzer object (`class FeedbackAnalyzer`): its review table, the derived columns it attaches, and the results of its stages |

The analyzer is a class because the source object updates its fields in place.

- `reviews` stands for the data frame.
- `polarityColumn`, `sentimentColumn` and `mentionColumns` are the columns
  the stages add to it.
- `sentimentResults` and `featureResults` are the stored stage results.
- `Valid()` ties each derived column to the table it was computed from.

Each stage method's `ensures` states its whole new state in terms of
specification functions. The properties of the stages are then proved about
those functions.

Text is modelled as ASCII strings (`AsciiString`). On ASCII, Python's
`str.lower`, the character class `[^a-zA-Z0-9\s]` and `str.split()` are
exact:

- whitespace is code points 9–13 and 28–32;
- a missing review text (NaN) is `None`;
- `preprocess_text` turns `None` into `""`;
- `str(NaN)` is `"nan"`, which is what the scorer and the negative-review
  join see.

The sentiment threshold is the exact value of the double `0.1`. The
comparisons are strict, as in the source.

## Model

| member | source | states |
|---|---|---|
| TextNormalizer.Normalize | car_rental_analyzer.py:43-57 | a missing text becomes ""; every result is in normal form: only lower-case letters, digits and single spaces between words, none at either end |
| TextNormalizer.NormalizeKeepsTokens | car_rental_analyzer.py:49-55 | collapsing whitespace changes only separators: the words of the result are exactly the words of the lower-cased text with special characters removed |
| TextNormalizer.NormalizeIdempotent | car_rental_analyzer.py:43-57 | preprocessing an already preprocessed text changes nothing |
| TextNormalizer.NormalIsFixpoint | car_rental_analyzer.py:48-57 | every text in normal form is left unchanged by preprocessing |
| TextNormalizer.JoinSplitOfNormal | car_rental_analyzer.py:55 | joining the whitespace-split words of a normal text with single spaces gives the text back |
| TextNormalizer.SplitJoinOfWords | car_rental_analyzer.py:55 | splitting a single-space join of tokens (non-empty, no whitespace character) gives the tokens back |
| TextNormalizer.JoinOfWordsIsNormal | car_rental_analyzer.py:55 | joining lower-case alphanumeric words with single spaces gives normal text |
| TextNormalizer.SplitGivesWords | car_rental_analyzer.py:52-55 | every token that split returns on cleaned text is a non-empty lower-case alphanumeric word |
| TextNormalizer.CleanedIsLowerOrSpace | car_rental_analyzer.py:49-52 | after lower-casing and removing special characters, every character is a lower-case letter, a digit or whitespace |
| TextNormalizer.Split | car_rental_analyzer.py:55 | `str.split()`; characterised by SplitGivesWords, SplitJoinOfWords and JoinSplitOfNormal |
| TextNormalizer.Join | car_rental_analyzer.py:55 | `' '.join(...)`; characterised by JoinOfWordsIsNormal, SplitJoinOfWords, JoinSplitOfNormal and JoinIsAscii |
| TextNormalizer.JoinIsAscii | car_rental_analyzer.py:145 | joining ASCII review texts with a space gives ASCII text |
| SentimentClassifier.Classify | car_rental_analyzer.py:73-79 | Positive exactly when polarity > 0.1, Negative exactly when polarity < -0.1, Neutral exactly when -0.1 <= polarity <= 0.1 |
| SentimentClassifier.Labels | car_rental_analyzer.py:73-85 | the sentiment column: each review's label is Classify of its polarity, in review order (characterised by Classify) |
| SentimentClassifier.Tallies | car_rental_analyzer.py:89-93 | the three counts of sentiment_results add up to the number of reviews |
| SentimentClassifier.CountsPartition | car_rental_analyzer.py:89-93 | the positive, negative and neutral counts add up to the number of reviews |
| Sequences.CountIsPositions | car_rental_analyzer.py:91-93 | a count (of a sentiment label, a word or a rating) is the number of positions that hold the value |
| Sequences.CountPositive | car_rental_analyzer.py:92 | a count is positive exactly when the value occurs, so a label is counted zero times exactly when no review carries it |
| FeatureTagger.Contains | car_rental_analyzer.py:113 | `keyword in processed_review`; characterised by ContainsIffOccurs |
| FeatureTagger.ContainsIffOccurs | car_rental_analyzer.py:113 | the keyword test holds exactly when the keyword occurs as a contiguous substring at some position of the processed review |
| FeatureTagger.SubstringOverMatches | car_rental_analyzer.py:28-29 | matching is by substring, not by word: "happy" mentions "app" and "coffee" mentions "fee" |
| FeatureTagger.Mentions | car_rental_analyzer.py:111-114 | a keyword is in a review's mention list exactly when it occurs in the processed review; the list is never longer than the keyword list |
| FeatureTagger.MentionsKeepOrder | car_rental_analyzer.py:111-114 | the mention list is a subsequence of the keyword list |
| FeatureTagger.MentionsNoRepeats | car_rental_analyzer.py:111-114 | with distinct keywords, no keyword is in the mention list twice |
| FeatureTagger.MatchKeywords | car_rental_analyzer.py:111-114 | the keyword loop of one category builds exactly the mention list of the specification |
| FeatureTagger.ColumnBounds | car_rental_analyzer.py:121-132 | for a category: reviews mentioning <= total mentions <= reviews × keywords, and reviews mentioning <= number of reviews |
| FeatureTagger.ReviewsMentioningIsIndexCount | car_rental_analyzer.py:132 | reviews_mentioning is the number of reviews with at least one match |
| FeatureTagger.CategoryFigures | car_rental_analyzer.py:124-133 | one category's statistics carry its name, and reviews mentioning <= total mentions <= reviews × keywords, reviews mentioning <= reviews |
| FeatureTagger.FeatureTable | car_rental_analyzer.py:124-133 | one statistics entry per category, in taxonomy order; each entry carries its category's name and the bounds of CategoryFigures; characterised by CategoryFigures and CategoriesIndependent |
| FeatureTagger.CategoriesIndependent | car_rental_analyzer.py:110-133 | a category's statistics depend only on that category's keywords, not on the rest of the taxonomy |
| FeatureTagger.TaxonomyNamesDistinct | car_rental_analyzer.py:24-31 | the taxonomy has six categories with distinct names |
| FeatureTagger.TaxonomyKeywordsDistinct | car_rental_analyzer.py:24-31 | no category lists a keyword twice |
| Ranking.SortByCountDesc | car_rental_analyzer.py:186 | the result is sorted by count with the largest first, is a permutation of the input, and keeps the input order among equal counts (stable) |
| Ranking.TiesKeepOrder | car_rental_analyzer.py:186 | two entries of the sorted list with equal counts appear in the same order in the input |
| Ranking.Take | car_rental_analyzer.py:198-199 | the slice `s[:n]` for n >= 0: a prefix of s of length min(n, len(s)); for n <= 0 it is empty, which is what `heapq.nlargest` (used by `most_common(n)`) returns, not the slice `s[:n]` |
| Ranking.TopEntries | car_rental_analyzer.py:159 | the first n entries of the sort: exactly min(max(n, 0), len(s)) of them, sorted, all from the input (dominance is TopEntriesDominate) |
| Ranking.TopEntriesDominate | car_rental_analyzer.py:159 | no entry left out of the first n has a larger count than a kept one |
| IssueFrequency.KeepIssueTerms | car_rental_analyzer.py:152-154 | a word is kept exactly when it is not a stop word and is longer than two characters, and each kept word keeps all its repeats (order: KeepIssueTermsInOrder) |
| IssueFrequency.KeepIssueTermsInOrder | car_rental_analyzer.py:154 | the filtered words are the input words at exactly the positions holding a counted term, in increasing position order |
| Sequences.CountIsMultiplicity | car_rental_analyzer.py:157 | the counter's count of a word is its multiplicity among the filtered words |
| IssueFrequency.Tally | car_rental_analyzer.py:157 | the counter holds each distinct word once, in first-occurrence order, with its number of occurrences |
| IssueFrequency.NegativeTexts | car_rental_analyzer.py:142 | a text is selected exactly when it is the text of a review labelled Negative, and there are as many selected texts as the negative count (order: NegativeTextsInOrder) |
| IssueFrequency.NegativeTextsInOrder | car_rental_analyzer.py:142-145 | the selected texts are the texts at exactly the Negative positions, in table order, each once per such position |
| IssueFrequency.IssueTerms | car_rental_analyzer.py:145-154 | every counted term of the negative reviews' joined, preprocessed text is a lower-case alphanumeric word, not a stop word, longer than two characters |
| IssueFrequency.MostCommon | car_rental_analyzer.py:157-159 | `Counter(words).most_common(n)`; characterised by MostCommonSpec and TopFiveOfTopTen |
| IssueFrequency.CommonIssues | car_rental_analyzer.py:145-159 | the issue ranking of the negative texts; characterised by CommonIssuesSpec and NoNegativeNoIssues |
| IssueFrequency.MostCommonTiesInOrder | car_rental_analyzer.py:159 | most_common(n) lists words with equal counts in the order they were first seen |
| IssueFrequency.MostCommonTiesAtCut | car_rental_analyzer.py:159 | a word left out by most_common(n) with the same count as a listed word was first seen after it |
| IssueFrequency.MostCommonSpec | car_rental_analyzer.py:159 | most_common(n): exactly min(max(n, 0), number of distinct words) entries, sorted by count with the largest first, distinct words each with its true count, and no word left out is more frequent than one listed; words with equal counts are listed in first-seen order, and a word left out with the same count as a listed one was first seen after it |
| IssueFrequency.CommonIssuesSpec | car_rental_analyzer.py:142-159 | exactly min(max(topN, 0), number of distinct counted terms) issues, sorted by count with the largest first; every reported issue is a non-stop-word longer than two characters, listed with its frequency over the negative reviews' preprocessed text, and no term left out is more frequent than one listed; terms with equal counts come in first-seen order, and a term left out with the same count as a listed one was first seen after it |
| IssueFrequency.NoNegativeNoIssues | car_rental_analyzer.py:142-159 | with no Negative review there are no issues |
| IssueFrequency.TopFiveOfTopTen | car_rental_analyzer.py:178-198 | the summary's first five of the top ten issues equal the top five |
| ReportSummary.RatingHistogram | car_rental_analyzer.py:170 | value_counts().sort_index(): ratings strictly ascending, each listed with its number of reviews, only ratings that occur, and the counts sum to the number of reviews |
| ReportSummary.HistogramEntries | car_rental_analyzer.py:170 | a rating is a key of the histogram exactly when some review has it |
| ReportSummary.MostMentioned | car_rental_analyzer.py:181-199 | `sorted(..., reverse=True)[:5]` of the (category, total mentions) pairs; characterised by MostMentionedSpec |
| ReportSummary.MostMentionedSpec | car_rental_analyzer.py:181-199 | exactly min(5, number of categories) categories, all from the feature results, sorted by total mentions with the largest first, ties in taxonomy order, and none left out has more mentions than one listed |
| Analyzer.RawText | car_rental_analyzer.py:69 | `str(review)`: a missing text renders as "nan", a present one as itself |
| Analyzer.RawTexts | car_rental_analyzer.py:145 | `astype(str)` of the review column: one rendered text per review, in review order |
| Analyzer.PolarityColumn | car_rental_analyzer.py:68-70 | the polarity of each review's rendered text, in review order; characterised through AnalyzeSentiment |
| Analyzer.TagReview | car_rental_analyzer.py:110-116 | the category loop for one review gives, for each category in taxonomy order, its mention list |
| Analyzer.TagReviews | car_rental_analyzer.py:107-121 | the review loop builds, per category, the mention column of all processed reviews |
| Analyzer.CategoryTotals | car_rental_analyzer.py:123-133 | the statistics loop gives each category's name, total mentions and number of reviews mentioning it |
| Analyzer.FeedbackAnalyzer.constructor | car_rental_analyzer.py:18-21 | a new analyzer holds no table and no results |
| Analyzer.FeedbackAnalyzer.Load | car_rental_analyzer.py:33-38 | a successful load replaces the table, drops its derived columns and keeps earlier stage results |
| Analyzer.FeedbackAnalyzer.AnalyzeSentiment | car_rental_analyzer.py:59-98 | None and no change without a table; otherwise attaches the polarity column and its labels, records the three counts, returns them, and the counts sum to the number of reviews |
| Analyzer.FeedbackAnalyzer.ExtractFeatures | car_rental_analyzer.py:100-135 | None and no change without a table; otherwise attaches the mention columns of the processed reviews and records and returns each category's statistics |
| Analyzer.FeedbackAnalyzer.IdentifyCommonIssues | car_rental_analyzer.py:137-159 | None exactly when no table is loaded; otherwise the top-n counted terms of the Negative reviews: exactly min(max(n, 0), number of distinct counted terms) of them, sorted, all non-stop-words, and empty when no review is Negative |
| Analyzer.FeedbackAnalyzer.GeneratePerformanceSummary | car_rental_analyzer.py:161-203 | None exactly when no table is loaded or no sentiment results exist; otherwise the review count, a rating histogram summing to it, the top five issues (min(5, number of distinct counted terms) of them), exactly five of the six categories sorted by mentions, and the stored feature results |

## Left out

- Reading the CSV file and parsing the dates in `load_data` (lines 33-41) are I/O. `Load` models the state change of a load that gets past `read_csv`. A load that then fails in the date parsing has the same effect on the state, because the new table is already assigned; a load that fails in `read_csv` changes nothing.
- TextBlob's polarity is a parameter `score: string -> real` of `AnalyzeSentiment`, because it is foreign code. Subjectivity and its column are left out.
- AnalyzeSentiment, GeneratePerformanceSummary: the floating-point fields are not modelled. These are `avg_polarity`, `avg_subjectivity`, `avg_mentions_per_review`, `average_rating`, `average_polarity` and the formatted sentiment percentages.
- ExtractFeatures: the per-review `_count` columns are not stored separately. Each count is the length of that review's mention list in `mentionColumns`.
- GeneratePerformanceSummary: requires a non-empty table, a sentiment column and feature results whenever a table and sentiment results exist. On an empty table the source divides by zero, and it reads the feature results and the `sentiment` column without checking them. Those states raise in the source instead of producing a summary.
- IdentifyCommonIssues: requires the sentiment column when a table is loaded, since without it the source raises on `self.df['sentiment']`.
- Text is limited to ASCII. Unicode lower-casing and Unicode whitespace in `str.split()` are not modelled.
- The taxonomy is a module constant. The source stores it on the instance but never changes it.
- Rating values are integers and a missing rating is not modelled. `value_counts()` leaves NaN out, so in the source the histogram sums to `total_reviews` only when every rating is present.
- Visualisations, the word cloud, `save_report`, the Streamlit application and `main` are presentation and file output. The data generator, `run_app.py` and `setup.py` are not part of this model.
