/** The integer and ordering parts of the performance summary
    (generate_performance_summary): the rating histogram, the top issue terms
    and the categories ranked by total mentions. */
module ReportSummary {
  import opened Sequences
  import opened Ranking
  import opened FeatureTagger

  predicate StrictlyAscending(h: seq<(int, nat)>) {
    forall i, j :: 0 <= i < j < |h| ==> h[i].0 < h[j].0
  }

  /** The count a histogram records for rating x (0 when x is absent). */
  function Lookup(h: seq<(int, nat)>, x: int): nat {
    if h == [] then 0 else if h[0].0 == x then h[0].1 else Lookup(h[1..], x)
  }

  function CountSum(h: seq<(int, nat)>): nat {
    if h == [] then 0 else h[0].1 + CountSum(h[1..])
  }

  /** Adds one rating to a histogram kept in ascending key order. */
  function AddRating(h: seq<(int, nat)>, r: int): seq<(int, nat)> {
    if h == [] then [(r, 1)]
    else if h[0].0 == r then [(r, h[0].1 + 1)] + h[1..]
    else if r < h[0].0 then [(r, 1)] + h
    else [h[0]] + AddRating(h[1..], r)
  }

  lemma {:induction false} AddRatingAbove(h: seq<(int, nat)>, r: int, b: int)
    requires b < r && forall i :: 0 <= i < |h| ==> b < h[i].0
    ensures forall i :: 0 <= i < |AddRating(h, r)| ==> b < AddRating(h, r)[i].0
  {
    if h != [] && h[0].0 < r {
      AddRatingAbove(h[1..], r, b);
      assert AddRating(h, r) == [h[0]] + AddRating(h[1..], r);
    }
  }

  lemma {:induction false} AddRatingSorted(h: seq<(int, nat)>, r: int)
    requires StrictlyAscending(h)
    ensures StrictlyAscending(AddRating(h, r))
  {
    if h != [] && h[0].0 < r {
      var rest := AddRating(h[1..], r);
      AddRatingSorted(h[1..], r);
      AddRatingAbove(h[1..], r, h[0].0);
      var a := [h[0]] + rest;
      assert AddRating(h, r) == a;
      forall i, j | 0 <= i < j < |a| ensures a[i].0 < a[j].0 {
        assert a[j] == rest[j - 1];
        if i > 0 { assert a[i] == rest[i - 1]; }
      }
    }
  }

  lemma AddRatingCounts(h: seq<(int, nat)>, r: int)
    requires StrictlyAscending(h)
    ensures forall x :: Lookup(AddRating(h, r), x) == Lookup(h, x) + (if x == r then 1 else 0)
    ensures forall e :: e in AddRating(h, r) ==> e in h || (e.0 == r && e.1 > 0)
    ensures CountSum(AddRating(h, r)) == CountSum(h) + 1
  {
    forall x ensures Lookup(AddRating(h, r), x) == Lookup(h, x) + (if x == r then 1 else 0) {
      AddRatingLookup(h, r, x);
    }
    AddRatingEntries(h, r);
    AddRatingSum(h, r);
  }

  lemma {:induction false} AddRatingLookup(h: seq<(int, nat)>, r: int, x: int)
    requires StrictlyAscending(h)
    ensures Lookup(AddRating(h, r), x) == Lookup(h, x) + (if x == r then 1 else 0)
  {
    if h == [] {
    } else if h[0].0 == r {
      if x == r { AbsentBelow(h[1..], r); }
      assert AddRating(h, r)[1..] == h[1..];
    } else if r < h[0].0 {
      if x == r { AbsentBelow(h, r); }
      assert AddRating(h, r)[1..] == h;
    } else {
      AddRatingLookup(h[1..], r, x);
      assert AddRating(h, r)[1..] == AddRating(h[1..], r);
    }
  }

  lemma {:induction false} AddRatingEntries(h: seq<(int, nat)>, r: int)
    ensures forall e :: e in AddRating(h, r) ==> e in h || (e.0 == r && e.1 > 0)
  {
    if h != [] && h[0].0 != r && h[0].0 < r {
      AddRatingEntries(h[1..], r);
      assert AddRating(h, r) == [h[0]] + AddRating(h[1..], r);
    } else if h != [] && h[0].0 == r {
      assert AddRating(h, r) == [(r, h[0].1 + 1)] + h[1..];
    }
  }

  lemma {:induction false} AddRatingSum(h: seq<(int, nat)>, r: int)
    ensures CountSum(AddRating(h, r)) == CountSum(h) + 1
  {
    if h != [] && h[0].0 != r && h[0].0 < r {
      AddRatingSum(h[1..], r);
      assert AddRating(h, r)[1..] == AddRating(h[1..], r);
    } else if h != [] && h[0].0 == r {
      assert AddRating(h, r)[1..] == h[1..];
    } else if h != [] {
      assert AddRating(h, r)[1..] == h;
    }
  }

  /** A rating below every key of a sorted histogram is not recorded. */
  lemma {:induction false} AbsentBelow(h: seq<(int, nat)>, x: int)
    requires StrictlyAscending(h)
    requires forall i :: 0 <= i < |h| ==> x < h[i].0
    ensures Lookup(h, x) == 0
  {
    if h != [] {
      AbsentBelow(h[1..], x);
    }
  }

  /** value_counts().sort_index(): one (rating, count) entry per distinct
      rating, ascending by rating, each count the number of reviews with that
      rating; the counts add up to the number of reviews. */
  function RatingHistogram(ratings: seq<int>): (h: seq<(int, nat)>)
    ensures StrictlyAscending(h)
    ensures forall x :: Lookup(h, x) == Count(ratings, x)
    ensures forall e :: e in h ==> e.1 > 0
    ensures CountSum(h) == |ratings|
  {
    if ratings == [] then []
    else
      var n := |ratings| - 1;
      var before := RatingHistogram(ratings[..n]);
      AddRatingSorted(before, ratings[n]);
      AddRatingCounts(before, ratings[n]);
      AddRating(before, ratings[n])
  }

  /** In a sorted histogram every entry is what Lookup finds for its key. */
  lemma {:induction false} LookupFindsEntry(h: seq<(int, nat)>, e: (int, nat))
    requires StrictlyAscending(h) && e in h
    ensures Lookup(h, e.0) == e.1
  {
    if h[0] != e {
      assert e in h[1..];
      var k :| 0 <= k < |h[1..]| && h[1..][k] == e;
      assert h[k + 1] == e;
      LookupFindsEntry(h[1..], e);
    }
  }

  lemma {:induction false} LookupPositiveHasEntry(h: seq<(int, nat)>, x: int)
    requires Lookup(h, x) > 0
    ensures (x, Lookup(h, x)) in h
  {
    if h[0].0 != x {
      LookupPositiveHasEntry(h[1..], x);
    }
  }

  /** The histogram's keys are exactly the ratings that occur, each with its
      number of occurrences. */
  lemma HistogramEntries(ratings: seq<int>)
    ensures forall e :: e in RatingHistogram(ratings) ==> e.0 in ratings && e.1 == Count(ratings, e.0)
    ensures forall x :: x in ratings ==> (x, Count(ratings, x)) in RatingHistogram(ratings)
  {
    var h := RatingHistogram(ratings);
    forall e | e in h ensures e.0 in ratings && e.1 == Count(ratings, e.0) {
      LookupFindsEntry(h, e);
      CountPositive(ratings, e.0);
    }
    forall x | x in ratings ensures (x, Count(ratings, x)) in h {
      CountPositive(ratings, x);
      LookupPositiveHasEntry(h, x);
    }
  }

  /** (category, total_mentions) pairs in taxonomy order. */
  function FeaturePairs(stats: seq<CategoryStats>): (pairs: seq<Entry>)
    ensures |pairs| == |stats|
  {
    seq(|stats|, i requires 0 <= i < |stats| => (stats[i].name, stats[i].totalMentions))
  }

  /** The summary's integer and ordering fields. */
  datatype Summary = Summary(
    totalReviews: nat,
    ratingDistribution: seq<(int, nat)>,
    topIssues: seq<Entry>,
    mostMentionedFeatures: seq<Entry>,
    featureAnalysis: seq<CategoryStats>)

  /** most_mentioned_features: (category, total mentions) pairs, largest
      first, ties in taxonomy order, at most five. */
  function MostMentioned(stats: seq<CategoryStats>): seq<Entry> {
    Take(SortByCountDesc(FeaturePairs(stats)), 5)
  }

  /** The five most mentioned categories (all of them when there are fewer):
      sorted by total mentions, largest first, ties in taxonomy order, and no
      category left out has more mentions than one listed. */
  lemma MostMentionedSpec(stats: seq<CategoryStats>)
    ensures |MostMentioned(stats)| == TopCount(5, |stats|)
    ensures SortedByCountDesc(MostMentioned(stats))
    ensures forall e :: e in MostMentioned(stats) ==> e in FeaturePairs(stats)
    ensures forall k :: WithCount(SortByCountDesc(FeaturePairs(stats)), k) == WithCount(FeaturePairs(stats), k)
    ensures forall e, i ::
              e in FeaturePairs(stats) && e !in MostMentioned(stats) && 0 <= i < |MostMentioned(stats)| ==>
              MostMentioned(stats)[i].1 >= e.1
  {
    TopEntries(FeaturePairs(stats), 5);
    TopEntriesDominate(FeaturePairs(stats), 5);
  }
}
