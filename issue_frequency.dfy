/** Most frequent terms of the negative reviews (identify_common_issues):
    join the negative texts, normalise, split into tokens, drop stop words and
    tokens of at most two characters, count the rest (first-seen order, as
    collections.Counter does) and rank them as Counter.most_common(n) does. */
module IssueFrequency {
  import opened Wrappers
  import opened TextNormalizer
  import opened SentimentClassifier
  import opened Sequences
  import opened Ranking

  /** The fixed stop-word set. */
  const StopWords: set<string> := {
    "the", "a", "an", "and", "or", "but", "in", "on", "at", "to", "for", "of", "with", "by",
    "is", "was", "were", "are", "be", "been", "have", "has", "had", "do", "does", "did",
    "will", "would", "could", "should", "may", "might", "must", "can",
    "i", "you", "he", "she", "it", "we", "they", "me", "him", "her", "us", "them",
    "my", "your", "his", "her", "its", "our", "their", "this", "that", "these", "those"
  }

  /** A token that is counted: not a stop word and longer than two characters. */
  predicate IsIssueTerm(w: string) {
    w !in StopWords && |w| > 2
  }

  /** The tokens that are counted, in their original order. */
  function KeepIssueTerms(tokens: seq<string>): (kept: seq<string>)
    ensures forall w :: w in kept <==> w in tokens && IsIssueTerm(w)
    ensures forall w :: multiset(kept)[w] == if IsIssueTerm(w) then multiset(tokens)[w] else 0
  {
    if tokens == [] then []
    else
      var n := |tokens| - 1;
      assert tokens == tokens[..n] + [tokens[n]];
      KeepIssueTerms(tokens[..n]) + (if IsIssueTerm(tokens[n]) then [tokens[n]] else [])
  }

  /** The distinct elements of ws in order of first occurrence. */
  function FirstOccurrences(ws: seq<string>): seq<string> {
    if ws == [] then []
    else
      var firsts := FirstOccurrences(ws[..|ws| - 1]);
      if ws[|ws| - 1] in firsts then firsts else firsts + [ws[|ws| - 1]]
  }

  /** Where w was first seen among the tokens: its place in the counter's
      key order (|FirstOccurrences(ws)| when w does not occur). */
  function Rank(ws: seq<string>, w: string): nat {
    IndexOf(FirstOccurrences(ws), w)
  }

  function Keys(t: seq<Entry>): seq<string> {
    seq(|t|, i requires 0 <= i < |t| => t[i].0)
  }

  /** Counts one more occurrence of w: the counter's update for one token. */
  function Bump(t: seq<Entry>, w: string): seq<Entry> {
    if t == [] then [(w, 1)]
    else if t[0].0 == w then [(w, t[0].1 + 1)] + t[1..]
    else [t[0]] + Bump(t[1..], w)
  }

  /** Counter(ws): one entry per distinct token, in first-seen order, holding
      the number of occurrences. */
  function Tally(ws: seq<string>): (t: seq<Entry>)
    ensures Keys(t) == FirstOccurrences(ws)
    ensures forall i :: 0 <= i < |t| ==> t[i].1 == Count(ws, t[i].0)
  {
    if ws == [] then []
    else
      var n := |ws| - 1;
      var before := Tally(ws[..n]);
      assert ws == ws[..n] + [ws[n]];
      TallyStep(ws[..n], ws[n], before);
      Bump(before, ws[n])
  }

  /** Counting one more token keeps the tally's keys and counts right. */
  lemma TallyStep(prefix: seq<string>, w: string, before: seq<Entry>)
    requires Keys(before) == FirstOccurrences(prefix)
    requires forall i :: 0 <= i < |before| ==> before[i].1 == Count(prefix, before[i].0)
    ensures Keys(Bump(before, w)) == FirstOccurrences(prefix + [w])
    ensures forall i :: 0 <= i < |Bump(before, w)| ==> Bump(before, w)[i].1 == Count(prefix + [w], Bump(before, w)[i].0)
  {
    var ws := prefix + [w];
    assert ws[..|ws| - 1] == prefix;
    FirstOccurrencesSpec(prefix);
    CountPositive(prefix, w);
    BumpSpec(before, w);
    var after := Bump(before, w);
    forall i | 0 <= i < |after| ensures after[i].1 == Count(ws, after[i].0) {
      var x := after[i].0;
      assert Count(ws, x) == Count(prefix, x) + if w == x then 1 else 0;
      if i == |before| {
        assert x == w && w !in Keys(before);
      }
    }
  }

  /** Counter(ws).most_common(n). */
  function MostCommon(ws: seq<string>, n: int): seq<Entry> {
    Take(SortByCountDesc(Tally(ws)), n)
  }

  /** The texts of the reviews labelled Negative, in review order. */
  function NegativeTexts(texts: seq<AsciiString>, labels: seq<Sentiment>): (negatives: seq<AsciiString>)
    requires |texts| == |labels|
    ensures |negatives| == Count(labels, Negative)
    ensures forall t :: t in negatives ==> exists i :: 0 <= i < |texts| && texts[i] == t && labels[i] == Negative
    ensures forall i :: 0 <= i < |texts| && labels[i] == Negative ==> texts[i] in negatives
  {
    if texts == [] then []
    else
      var n := |texts| - 1;
      var before := NegativeTexts(texts[..n], labels[..n]);
      before + (if labels[n] == Negative then [texts[n]] else [])
  }

  /** Which tokens are counted, position by position. */
  function IssueFlags(tokens: seq<string>): (flags: seq<bool>)
    ensures |flags| == |tokens|
  {
    seq(|tokens|, i requires 0 <= i < |tokens| => IsIssueTerm(tokens[i]))
  }

  /** Which reviews are labelled Negative, position by position. */
  function NegativeFlags(labels: seq<Sentiment>): (flags: seq<bool>)
    ensures |flags| == |labels|
  {
    seq(|labels|, i requires 0 <= i < |labels| => labels[i] == Negative)
  }

  /** The flagged positions, in increasing order. */
  function PositionsWhere(flags: seq<bool>): seq<int> {
    if flags == [] then []
    else
      var n := |flags| - 1;
      PositionsWhere(flags[..n]) + (if flags[n] then [n] else [])
  }

  /** out is the order-preserving selection of the flagged elements of src:
      idx lists exactly the flagged positions, increasingly, and out[k] is
      the element of src at idx[k]. */
  predicate Picks<T(==)>(out: seq<T>, src: seq<T>, idx: seq<int>, flags: seq<bool>) {
    && |flags| == |src|
    && |idx| == |out|
    && (forall a, b :: 0 <= a < b < |idx| ==> idx[a] < idx[b])
    && (forall k :: 0 <= k < |idx| ==> 0 <= idx[k] < |src| && out[k] == src[idx[k]])
    && (forall i :: 0 <= i < |src| ==> (flags[i] <==> i in idx))
  }

  /** The counted tokens of the negative reviews: lower-case alphanumeric
      words, none a stop word or shorter than three characters. */
  function IssueTerms(negativeTexts: seq<AsciiString>): (terms: seq<string>)
    ensures forall w :: w in terms ==> IsWord(w) && IsIssueTerm(w)
  {
    JoinIsAscii(" ", negativeTexts);
    var processed := Normalize(Some(Join(" ", negativeTexts)));
    SplitGivesWords(processed);
    KeepIssueTerms(Split(processed))
  }

  function CommonIssues(negativeTexts: seq<AsciiString>, topN: int): seq<Entry> {
    MostCommon(IssueTerms(negativeTexts), topN)
  }

  // ---------------------------------------------------------------------
  // Lemmas

  lemma {:induction false} FirstOccurrencesSpec(ws: seq<string>)
    ensures forall w :: w in FirstOccurrences(ws) <==> w in ws
    ensures Distinct(FirstOccurrences(ws))
  {
    if ws != [] {
      FirstOccurrencesSpec(ws[..|ws| - 1]);
      assert ws == ws[..|ws| - 1] + [ws[|ws| - 1]];
    }
  }

  /** Bump adds one to w's entry, or appends (w, 1) when w has none. */
  lemma BumpSpec(t: seq<Entry>, w: string)
    requires Distinct(Keys(t))
    ensures |Bump(t, w)| == if w in Keys(t) then |t| else |t| + 1
    ensures forall i :: 0 <= i < |t| ==> Bump(t, w)[i] == (t[i].0, t[i].1 + if t[i].0 == w then 1 else 0)
    ensures w !in Keys(t) ==> Bump(t, w)[|t|] == (w, 1)
    ensures Keys(Bump(t, w)) == if w in Keys(t) then Keys(t) else Keys(t) + [w]
  {
    BumpEntries(t, w);
    var b := Bump(t, w);
    if w in Keys(t) {
      assert Keys(b) == Keys(t);
    } else {
      assert Keys(b) == Keys(t) + [w];
    }
  }

  lemma {:induction false} BumpEntries(t: seq<Entry>, w: string)
    requires Distinct(Keys(t))
    ensures |Bump(t, w)| == if w in Keys(t) then |t| else |t| + 1
    ensures forall i :: 0 <= i < |t| ==> Bump(t, w)[i] == (t[i].0, t[i].1 + if t[i].0 == w then 1 else 0)
    ensures w !in Keys(t) ==> Bump(t, w)[|t|] == (w, 1)
  {
    if t == [] {
    } else if t[0].0 == w {
      BumpAtHead(t, w);
    } else {
      var rest := t[1..];
      assert Keys(rest) == Keys(t)[1..];
      BumpEntries(rest, w);
      BumpPastHead(t, w);
    }
  }

  /** Bumping the token of the first entry: only that entry changes. */
  lemma BumpAtHead(t: seq<Entry>, w: string)
    requires Distinct(Keys(t)) && t != [] && t[0].0 == w
    ensures w in Keys(t) && |Bump(t, w)| == |t|
    ensures forall i :: 0 <= i < |t| ==> Bump(t, w)[i] == (t[i].0, t[i].1 + if t[i].0 == w then 1 else 0)
  {
    var b := Bump(t, w);
    assert b == [(w, t[0].1 + 1)] + t[1..];
    assert Keys(t)[0] == w;
    forall i | 1 <= i < |t| ensures b[i] == t[i] && t[i].0 != w {
      assert Keys(t)[i] == t[i].0;
      assert b[i] == t[1..][i - 1];
    }
  }

  /** Bumping a token that is not the first entry's: the first entry stays
      and the rest is bumped. */
  lemma BumpPastHead(t: seq<Entry>, w: string)
    requires t != [] && t[0].0 != w
    requires Distinct(Keys(t[1..]))
    requires |Bump(t[1..], w)| == if w in Keys(t[1..]) then |t| - 1 else |t|
    requires forall i :: 0 <= i < |t| - 1 ==>
               Bump(t[1..], w)[i] == (t[1..][i].0, t[1..][i].1 + if t[1..][i].0 == w then 1 else 0)
    requires w !in Keys(t[1..]) ==> Bump(t[1..], w)[|t| - 1] == (w, 1)
    ensures |Bump(t, w)| == if w in Keys(t) then |t| else |t| + 1
    ensures forall i :: 0 <= i < |t| ==> Bump(t, w)[i] == (t[i].0, t[i].1 + if t[i].0 == w then 1 else 0)
    ensures w !in Keys(t) ==> Bump(t, w)[|t|] == (w, 1)
  {
    var rest := t[1..];
    var tail := Bump(rest, w);
    var b := [t[0]] + tail;
    assert Bump(t, w) == b;
    assert |b| == 1 + |tail|;
    assert Keys(t) == [t[0].0] + Keys(rest);
    assert w in Keys(t) <==> w in Keys(rest);
    assert b[0] == t[0];
    forall i | 1 <= i < |t| ensures b[i] == (t[i].0, t[i].1 + if t[i].0 == w then 1 else 0) {
      assert b[i] == tail[i - 1] && rest[i - 1] == t[i];
    }
    if w !in Keys(t) {
      assert b[|t|] == tail[|t| - 1];
    }
  }

  /** Two entries of a tally with the same token are the same entry, and no
      two positions hold the same entry. */
  lemma TallyEntriesDistinct(ws: seq<string>)
    ensures Distinct(Tally(ws))
  {
    var t := Tally(ws);
    FirstOccurrencesSpec(ws);
    forall i, j | 0 <= i < j < |t| ensures t[i] != t[j] {
      assert Keys(t)[i] == t[i].0 && Keys(t)[j] == t[j].0;
    }
  }

  /** Counter.most_common(n): n entries (every distinct token when there are
      fewer, none when n is not positive), counts never increase, each count
      is the token's number of occurrences, no token twice, every token
      left out occurs no more often than any token returned, and equal
      counts are broken by first occurrence, both within the list and at
      the cut. */
  lemma MostCommonSpec(ws: seq<string>, n: int)
    ensures |MostCommon(ws, n)| == TopCount(n, |FirstOccurrences(ws)|)
    ensures SortedByCountDesc(MostCommon(ws, n))
    ensures forall i :: 0 <= i < |MostCommon(ws, n)| ==>
              && MostCommon(ws, n)[i].0 in ws
              && MostCommon(ws, n)[i].1 == Count(ws, MostCommon(ws, n)[i].0) > 0
    ensures Distinct(Keys(MostCommon(ws, n)))
    ensures forall w, i :: w in ws && w !in Keys(MostCommon(ws, n)) && 0 <= i < |MostCommon(ws, n)| ==>
              MostCommon(ws, n)[i].1 >= Count(ws, w)
    ensures forall i, j :: 0 <= i < j < |MostCommon(ws, n)| && MostCommon(ws, n)[i].1 == MostCommon(ws, n)[j].1 ==>
              Rank(ws, MostCommon(ws, n)[i].0) < Rank(ws, MostCommon(ws, n)[j].0)
    ensures forall w, i ::
              (w in ws && w !in Keys(MostCommon(ws, n)) && 0 <= i < |MostCommon(ws, n)| &&
               MostCommon(ws, n)[i].1 == Count(ws, w)) ==>
              Rank(ws, MostCommon(ws, n)[i].0) < Rank(ws, w)
  {
    TopEntries(Tally(ws), n);
    assert |Tally(ws)| == |Keys(Tally(ws))|;
    MostCommonCounts(ws, n);
    MostCommonKeysDistinct(ws, n);
    MostCommonIsTop(ws, n);
    MostCommonTiesInOrder(ws, n);
    MostCommonTiesAtCut(ws, n);
  }

  /** An entry of the tally sits at its token's rank. */
  lemma TallyRank(ws: seq<string>, a: nat)
    requires a < |Tally(ws)|
    ensures Rank(ws, Tally(ws)[a].0) == a
  {
    var t := Tally(ws);
    FirstOccurrencesSpec(ws);
    assert Keys(t)[a] == t[a].0;
    DistinctIndexOf(Keys(t), a);
  }

  /** Tokens with equal counts are listed in first-seen order. */
  lemma MostCommonTiesInOrder(ws: seq<string>, n: int)
    ensures forall i, j :: 0 <= i < j < |MostCommon(ws, n)| && MostCommon(ws, n)[i].1 == MostCommon(ws, n)[j].1 ==>
              Rank(ws, MostCommon(ws, n)[i].0) < Rank(ws, MostCommon(ws, n)[j].0)
  {
    var t := Tally(ws);
    var sorted := SortByCountDesc(t);
    var r := MostCommon(ws, n);
    forall i, j | 0 <= i < j < |r| && r[i].1 == r[j].1 ensures Rank(ws, r[i].0) < Rank(ws, r[j].0) {
      assert r[i] == sorted[i] && r[j] == sorted[j];
      TiesKeepOrder(t, i, j);
      var a, b :| 0 <= a < b < |t| && t[a] == r[i] && t[b] == r[j];
      TallyRank(ws, a);
      TallyRank(ws, b);
    }
  }

  /** At the cut, a token left out with the same count as a listed one was
      first seen after it. */
  lemma MostCommonTiesAtCut(ws: seq<string>, n: int)
    ensures forall w, i ::
              (w in ws && w !in Keys(MostCommon(ws, n)) && 0 <= i < |MostCommon(ws, n)| &&
               MostCommon(ws, n)[i].1 == Count(ws, w)) ==>
              Rank(ws, MostCommon(ws, n)[i].0) < Rank(ws, w)
  {
    forall w, i |
      && w in ws && w !in Keys(MostCommon(ws, n)) && 0 <= i < |MostCommon(ws, n)|
      && MostCommon(ws, n)[i].1 == Count(ws, w)
      ensures Rank(ws, MostCommon(ws, n)[i].0) < Rank(ws, w)
    {
      TieAtCut(ws, n, w, i);
    }
  }

  /** The token of every entry in the kept prefix is one of its keys. */
  lemma KeptInPrefix(r: seq<Entry>, sorted: seq<Entry>, p: nat)
    requires |r| <= |sorted| && r == sorted[..|r|] && p < |r|
    ensures sorted[p].0 in Keys(r)
  {
    assert Keys(r)[p] == r[p].0;
  }

  /** One word left out at the cut and one listed word with the same count. */
  lemma TieAtCut(ws: seq<string>, n: int, w: string, i: nat)
    requires w in ws && w !in Keys(MostCommon(ws, n)) && i < |MostCommon(ws, n)|
    requires MostCommon(ws, n)[i].1 == Count(ws, w)
    ensures Rank(ws, MostCommon(ws, n)[i].0) < Rank(ws, w)
  {
    var t := Tally(ws);
    var sorted := SortByCountDesc(t);
    var r := MostCommon(ws, n);
    assert r == sorted[..|r|];
    FirstOccurrencesSpec(ws);
    var k := Rank(ws, w);
    assert k < |t| && Keys(t)[k] == w && t[k].0 == w;
    assert t[k] in multiset(sorted);
    var p :| 0 <= p < |sorted| && sorted[p] == t[k];
    if p < |r| {
      KeptInPrefix(r, sorted, p);
      assert false;
    }
    assert r[i] == sorted[i];
    TiesKeepOrder(t, i, p);
    var a, b :| 0 <= a < b < |t| && t[a] == r[i] && t[b] == t[k];
    TallyRank(ws, a);
    TallyRank(ws, b);
  }

  lemma MostCommonCounts(ws: seq<string>, n: int)
    ensures forall i :: 0 <= i < |MostCommon(ws, n)| ==>
              && MostCommon(ws, n)[i].0 in ws
              && MostCommon(ws, n)[i].1 == Count(ws, MostCommon(ws, n)[i].0) > 0
  {
    var t := Tally(ws);
    var r := MostCommon(ws, n);
    TopEntries(t, n);
    FirstOccurrencesSpec(ws);
    forall i | 0 <= i < |r| ensures r[i].0 in ws && r[i].1 == Count(ws, r[i].0) > 0 {
      assert r[i] in r;
      var k :| 0 <= k < |t| && t[k] == r[i];
      assert Keys(t)[k] == r[i].0;
      CountPositive(ws, r[i].0);
    }
  }

  lemma MostCommonKeysDistinct(ws: seq<string>, n: int)
    ensures Distinct(Keys(MostCommon(ws, n)))
  {
    var t := Tally(ws);
    var sorted := SortByCountDesc(t);
    var r := MostCommon(ws, n);
    MostCommonCounts(ws, n);
    TallyEntriesDistinct(ws);
    DistinctIffSingletons(t);
    DistinctIffSingletons(sorted);
    assert Distinct(r) by {
      forall i, j | 0 <= i < j < |r| ensures r[i] != r[j] {
        assert r[i] == sorted[i] && r[j] == sorted[j];
      }
    }
    forall i, j | 0 <= i < j < |r| ensures Keys(r)[i] != Keys(r)[j] {
      assert Keys(r)[i] == r[i].0 && Keys(r)[j] == r[j].0;
    }
  }

  lemma MostCommonIsTop(ws: seq<string>, n: int)
    ensures forall w, i :: w in ws && w !in Keys(MostCommon(ws, n)) && 0 <= i < |MostCommon(ws, n)| ==>
              MostCommon(ws, n)[i].1 >= Count(ws, w)
  {
    var t := Tally(ws);
    var r := MostCommon(ws, n);
    TopEntriesDominate(t, n);
    FirstOccurrencesSpec(ws);
    forall w, i | w in ws && w !in Keys(r) && 0 <= i < |r| ensures r[i].1 >= Count(ws, w) {
      assert w in Keys(t);
      var k :| 0 <= k < |t| && Keys(t)[k] == w;
      assert t[k] in t;
      forall m | 0 <= m < |r| ensures r[m] != t[k] {
        assert Keys(r)[m] == r[m].0;
      }
      assert t[k] !in r;
    }
  }

  /** identify_common_issues: topN terms (every distinct counted term when
      there are fewer, none when topN is not positive), none a stop word or
      shorter than three characters, counts non-increasing and equal to the
      term's occurrences among the counted tokens, no omitted term
      occurring more often than a returned one, and ties broken by first
      occurrence. */
  lemma CommonIssuesSpec(negativeTexts: seq<AsciiString>, topN: int)
    ensures |CommonIssues(negativeTexts, topN)| == TopCount(topN, |FirstOccurrences(IssueTerms(negativeTexts))|)
    ensures SortedByCountDesc(CommonIssues(negativeTexts, topN))
    ensures forall i :: 0 <= i < |CommonIssues(negativeTexts, topN)| ==>
              && IsIssueTerm(CommonIssues(negativeTexts, topN)[i].0)
              && CommonIssues(negativeTexts, topN)[i].1
                 == Count(IssueTerms(negativeTexts), CommonIssues(negativeTexts, topN)[i].0) > 0
    ensures forall w, i ::
              w in IssueTerms(negativeTexts) && w !in Keys(CommonIssues(negativeTexts, topN)) &&
              0 <= i < |CommonIssues(negativeTexts, topN)| ==>
              CommonIssues(negativeTexts, topN)[i].1 >= Count(IssueTerms(negativeTexts), w)
    ensures forall i, j ::
              (0 <= i < j < |CommonIssues(negativeTexts, topN)| &&
               CommonIssues(negativeTexts, topN)[i].1 == CommonIssues(negativeTexts, topN)[j].1) ==>
              Rank(IssueTerms(negativeTexts), CommonIssues(negativeTexts, topN)[i].0)
              < Rank(IssueTerms(negativeTexts), CommonIssues(negativeTexts, topN)[j].0)
    ensures forall w, i ::
              (w in IssueTerms(negativeTexts) && w !in Keys(CommonIssues(negativeTexts, topN)) &&
               0 <= i < |CommonIssues(negativeTexts, topN)| &&
               CommonIssues(negativeTexts, topN)[i].1 == Count(IssueTerms(negativeTexts), w)) ==>
              Rank(IssueTerms(negativeTexts), CommonIssues(negativeTexts, topN)[i].0)
              < Rank(IssueTerms(negativeTexts), w)
  {
    MostCommonSpec(IssueTerms(negativeTexts), topN);
  }

  /** Appending one element, flagged or not, to a selection. */
  lemma PicksExtend<T>(out: seq<T>, src: seq<T>, idx: seq<int>, flags: seq<bool>, x: T, f: bool)
    requires Picks(out, src, idx, flags)
    ensures Picks(out + (if f then [x] else []), src + [x], idx + (if f then [|src|] else []), flags + [f])
  {
    var out', src', idx', flags' := out + (if f then [x] else []), src + [x], idx + (if f then [|src|] else []), flags + [f];
    forall k | 0 <= k < |idx'| ensures 0 <= idx'[k] < |src'| && out'[k] == src'[idx'[k]] {
      if k < |idx| {
        assert idx'[k] == idx[k] && out'[k] == out[k];
      }
    }
    forall i | 0 <= i < |src'| ensures flags'[i] <==> i in idx' {
      if i < |src| {
        assert flags'[i] == flags[i];
        assert i in idx' <==> i in idx;
      } else {
        assert |src| !in idx;
      }
    }
  }

  /** The stop-word filter keeps the counted tokens in their order. */
  lemma {:induction false} KeepIssueTermsInOrder(tokens: seq<string>)
    ensures Picks(KeepIssueTerms(tokens), tokens, PositionsWhere(IssueFlags(tokens)), IssueFlags(tokens))
  {
    if tokens != [] {
      var n := |tokens| - 1;
      KeepIssueTermsInOrder(tokens[..n]);
      assert IssueFlags(tokens)[..n] == IssueFlags(tokens[..n]);
      PicksExtend(KeepIssueTerms(tokens[..n]), tokens[..n], PositionsWhere(IssueFlags(tokens[..n])),
                  IssueFlags(tokens[..n]), tokens[n], IsIssueTerm(tokens[n]));
      assert tokens[..n] + [tokens[n]] == tokens;
      assert IssueFlags(tokens[..n]) + [IsIssueTerm(tokens[n])] == IssueFlags(tokens);
    }
  }

  /** The Negative mask keeps the selected texts in table order, each as
      often as it is selected. */
  lemma {:induction false} NegativeTextsInOrder(texts: seq<AsciiString>, labels: seq<Sentiment>)
    requires |texts| == |labels|
    ensures Picks(NegativeTexts(texts, labels), texts, PositionsWhere(NegativeFlags(labels)), NegativeFlags(labels))
  {
    if texts != [] {
      var n := |texts| - 1;
      NegativeTextsInOrder(texts[..n], labels[..n]);
      assert NegativeFlags(labels)[..n] == NegativeFlags(labels[..n]);
      PicksExtend(NegativeTexts(texts[..n], labels[..n]), texts[..n], PositionsWhere(NegativeFlags(labels[..n])),
                  NegativeFlags(labels[..n]), texts[n], labels[n] == Negative);
      assert texts[..n] + [texts[n]] == texts;
      assert NegativeFlags(labels[..n]) + [labels[n] == Negative] == NegativeFlags(labels);
    }
  }

  /** With no Negative review there is nothing to count. */
  lemma NoNegativeNoIssues(texts: seq<AsciiString>, labels: seq<Sentiment>, topN: int)
    requires |texts| == |labels|
    requires Negative !in labels
    ensures CommonIssues(NegativeTexts(texts, labels), topN) == []
  {
    CountPositive(labels, Negative);
    var none: seq<AsciiString> := [];
    assert NegativeTexts(texts, labels) == none;
    assert Join(" ", none) == "";
    assert LowerAll("") == "";
    assert Normalize(Some("")) == "";
    assert IssueTerms(none) == [];
  }

  /** most_common(10)[:5] is most_common(5). */
  lemma TopFiveOfTopTen(ws: seq<string>)
    ensures Take(MostCommon(ws, 10), 5) == MostCommon(ws, 5)
  {
  }
}
