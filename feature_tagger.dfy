/** Keyword category tagging (extract_features): for every review and every
    category of the fixed taxonomy, the category's keywords that occur as
    contiguous substrings of the normalised text, and per-category totals. */
module FeatureTagger {
  import opened Sequences

  datatype Category = Category(name: string, keywords: seq<string>)

  /** The six categories and their keywords, in declaration order. */
  const Taxonomy: seq<Category> := [
    Category("car_condition", ["clean", "dirty", "damaged", "scratch", "dent", "interior", "exterior", "maintenance"]),
    Category("delivery_pickup", ["late", "on time", "early", "delivery", "pickup", "punctual", "delayed"]),
    Category("staff_service", ["staff", "employee", "service", "helpful", "rude", "friendly", "professional", "courteous"]),
    Category("pricing", ["price", "cost", "expensive", "cheap", "affordable", "value", "money", "fee"]),
    Category("booking_process", ["booking", "reservation", "website", "app", "easy", "difficult", "confusing"]),
    Category("car_performance", ["engine", "brake", "air conditioning", "radio", "gps", "fuel", "performance"])
  ]

  /** Per-category figures; the mean mentions per review is not modelled. */
  datatype CategoryStats = CategoryStats(name: string, totalMentions: nat, reviewsMentioning: nat)

  /** keyword occurs in text starting at position i. */
  ghost predicate OccursAt(keyword: string, text: string, i: int) {
    0 <= i <= |text| - |keyword| && text[i..i + |keyword|] == keyword
  }

  /** Python's substring test `keyword in text`. */
  function Contains(text: string, keyword: string): bool
    decreases |text|
  {
    if keyword <= text then true
    else if text == [] then false
    else Contains(text[1..], keyword)
  }

  /** The substring test holds exactly when the keyword occurs at some
      position: it is not a whole-word test. */
  lemma {:induction false} ContainsIffOccurs(text: string, keyword: string)
    ensures Contains(text, keyword) <==> exists i :: OccursAt(keyword, text, i)
    decreases |text|
  {
    if keyword <= text {
      assert OccursAt(keyword, text, 0);
    } else if text == [] {
    } else {
      ContainsIffOccurs(text[1..], keyword);
      if Contains(text, keyword) {
        var j :| OccursAt(keyword, text[1..], j);
        assert text[1..][j..j + |keyword|] == text[j + 1..j + 1 + |keyword|];
        assert OccursAt(keyword, text, j + 1);
      } else {
        forall i ensures !OccursAt(keyword, text, i) {
          if i == 0 && |keyword| <= |text| {
            assert text[..|keyword|] == text[0..|keyword|];
          } else if 0 < i <= |text| - |keyword| {
            assert text[1..][i - 1..i - 1 + |keyword|] == text[i..i + |keyword|];
            assert !OccursAt(keyword, text[1..], i - 1);
          }
        }
      }
    }
  }

  /** The looseness of substring matching: 'app' is found inside "happy" and
      'fee' inside "coffee". */
  lemma SubstringOverMatches()
    ensures Contains("happy", "app") && Contains("coffee", "fee")
  {
    ContainsIffOccurs("happy", "app");
    assert OccursAt("app", "happy", 1);
    ContainsIffOccurs("coffee", "fee");
    assert OccursAt("fee", "coffee", 3);
  }

  /** The keywords of a category found in one normalised review, in keyword
      order (each keyword tested once). */
  function Mentions(text: string, keywords: seq<string>): (m: seq<string>)
    ensures |m| <= |keywords|
    ensures forall k :: k in m <==> k in keywords && Contains(text, k)
    decreases |keywords|
  {
    if keywords == [] then []
    else
      var n := |keywords| - 1;
      assert keywords == keywords[..n] + [keywords[n]];
      Mentions(text, keywords[..n]) + (if Contains(text, keywords[n]) then [keywords[n]] else [])
  }

  /** a is obtained from b by deleting elements. */
  predicate IsSubsequence<T(==)>(a: seq<T>, b: seq<T>)
    decreases |b|
  {
    if a == [] then true
    else if b == [] then false
    else if a[|a| - 1] == b[|b| - 1] then IsSubsequence(a[..|a| - 1], b[..|b| - 1])
    else IsSubsequence(a, b[..|b| - 1])
  }

  /** The mentions keep the order of the keyword list. */
  lemma {:induction false} MentionsKeepOrder(text: string, keywords: seq<string>)
    ensures IsSubsequence(Mentions(text, keywords), keywords)
    decreases |keywords|
  {
    if keywords != [] {
      var n := |keywords| - 1;
      var last := keywords[n];
      var before := Mentions(text, keywords[..n]);
      MentionsKeepOrder(text, keywords[..n]);
      if Contains(text, last) {
        var m := before + [last];
        assert m[..|m| - 1] == before;
      } else {
        assert Mentions(text, keywords) == before;
        if before != [] {
          assert before[|before| - 1] in before;
        }
      }
    }
  }

  /** With distinct keywords, no keyword is mentioned twice. */
  lemma {:induction false} MentionsNoRepeats(text: string, keywords: seq<string>)
    requires Distinct(keywords)
    ensures Distinct(Mentions(text, keywords))
    decreases |keywords|
  {
    if keywords != [] {
      var n := |keywords| - 1;
      var before := Mentions(text, keywords[..n]);
      assert Distinct(keywords[..n]);
      MentionsNoRepeats(text, keywords[..n]);
      if Contains(text, keywords[n]) {
        assert keywords[n] !in keywords[..n];
        assert keywords[n] !in before;
      }
    }
  }

  /** The keyword loop run for one review and one category. */
  method MatchKeywords(text: string, keywords: seq<string>) returns (mentions: seq<string>)
    ensures mentions == Mentions(text, keywords)
  {
    mentions := [];
    for j := 0 to |keywords|
      invariant mentions == Mentions(text, keywords[..j])
    {
      assert keywords[..j + 1][..j] == keywords[..j];
      if Contains(text, keywords[j]) {
        mentions := mentions + [keywords[j]];
      }
    }
    assert keywords[..|keywords|] == keywords;
  }

  /** The mentions of one category across all reviews, in review order. */
  function MentionColumn(texts: seq<string>, keywords: seq<string>): (column: seq<seq<string>>)
    ensures |column| == |texts|
  {
    seq(|texts|, i requires 0 <= i < |texts| => Mentions(texts[i], keywords))
  }

  /** One mention column per category, in taxonomy order. */
  function MentionTable(texts: seq<string>, taxonomy: seq<Category>): seq<seq<seq<string>>> {
    seq(|taxonomy|, c requires 0 <= c < |taxonomy| => MentionColumn(texts, taxonomy[c].keywords))
  }

  /** Sum of the per-review mention counts. */
  function TotalMentions(column: seq<seq<string>>): nat {
    if column == [] then 0
    else TotalMentions(column[..|column| - 1]) + |column[|column| - 1]|
  }

  /** Number of reviews whose mention count is positive. */
  function ReviewsMentioning(column: seq<seq<string>>): nat {
    if column == [] then 0
    else ReviewsMentioning(column[..|column| - 1]) + (if |column[|column| - 1]| > 0 then 1 else 0)
  }

  /** A review that mentions the category contributes at least one mention,
      so reviewsMentioning is bounded by both the review count and the
      total; each review contributes at most all of the keywords. */
  lemma {:induction false} ColumnBounds(column: seq<seq<string>>, width: nat)
    requires forall i :: 0 <= i < |column| ==> |column[i]| <= width
    ensures ReviewsMentioning(column) <= |column|
    ensures ReviewsMentioning(column) <= TotalMentions(column)
    ensures TotalMentions(column) <= |column| * width
  {
    if column != [] {
      var n := |column| - 1;
      ColumnBounds(column[..n], width);
      assert |column| * width == n * width + width;
    }
  }

  /** reviews_mentioning counts the positions of the column whose mention
      list is non-empty. */
  lemma {:induction false} ReviewsMentioningIsIndexCount(column: seq<seq<string>>)
    ensures ReviewsMentioning(column) == |set i | 0 <= i < |column| && |column[i]| > 0|
  {
    if column != [] {
      var n := |column| - 1;
      ReviewsMentioningIsIndexCount(column[..n]);
      var before := set i | 0 <= i < n && |column[..n][i]| > 0;
      var now := set i | 0 <= i < |column| && |column[i]| > 0;
      assert before == set i | 0 <= i < n && |column[i]| > 0;
      if |column[n]| > 0 {
        assert now == before + {n};
      } else {
        assert now == before;
      }
    }
  }

  /** The figures of one category depend on that category's keywords only:
      its name, its total mentions and the reviews mentioning it, within the
      bounds of ColumnBounds. */
  function CategoryFigures(texts: seq<string>, category: Category): (stats: CategoryStats)
    ensures stats.name == category.name
    ensures stats.reviewsMentioning <= |texts|
    ensures stats.reviewsMentioning <= stats.totalMentions <= |texts| * |category.keywords|
  {
    var column := MentionColumn(texts, category.keywords);
    ColumnBounds(column, |category.keywords|);
    CategoryStats(category.name, TotalMentions(column), ReviewsMentioning(column))
  }

  function FeatureTable(texts: seq<string>, taxonomy: seq<Category>): (t: seq<CategoryStats>)
    ensures |t| == |taxonomy|
  {
    seq(|taxonomy|, c requires 0 <= c < |taxonomy| => CategoryFigures(texts, taxonomy[c]))
  }

  /** Categories are independent: removing one category from the taxonomy
      leaves the figures of every other category unchanged. */
  lemma CategoriesIndependent(texts: seq<string>, taxonomy: seq<Category>, j: nat)
    requires j < |taxonomy|
    ensures FeatureTable(texts, taxonomy[..j] + taxonomy[j + 1..])
         == FeatureTable(texts, taxonomy)[..j] + FeatureTable(texts, taxonomy)[j + 1..]
  {
  }

  /** The taxonomy has six categories with distinct names (they are the keys
      of a dictionary). */
  lemma TaxonomyNamesDistinct()
    ensures |Taxonomy| == 6
    ensures forall c, d :: 0 <= c < d < |Taxonomy| ==> Taxonomy[c].name != Taxonomy[d].name
  {
    forall c, d | 0 <= c < d < |Taxonomy| ensures Taxonomy[c].name != Taxonomy[d].name {
      assert Taxonomy[c].name[0] != Taxonomy[d].name[0] || |Taxonomy[c].name| != |Taxonomy[d].name|;
    }
  }

  /** No category lists a keyword twice, so no keyword is counted twice for
      one review. */
  lemma TaxonomyKeywordsDistinct()
    ensures forall c :: 0 <= c < |Taxonomy| ==> Distinct(Taxonomy[c].keywords)
  {
    forall c | 0 <= c < |Taxonomy| ensures Distinct(Taxonomy[c].keywords) {
      KeywordsDistinct(c);
    }
  }

  /** The keywords of one category pairwise differ in their first letter or
      their length, so they are distinct. */
  lemma KeywordsDistinct(c: nat)
    requires c < |Taxonomy|
    ensures Distinct(Taxonomy[c].keywords)
  {
    var ks := Taxonomy[c].keywords;
    forall i | 0 <= i < |ks| ensures forall j :: i < j < |ks| ==> ks[i] != ks[j] {
      var w := ks[i];
      forall j | i < j < |ks| ensures w != ks[j] {
        assert |w| != |ks[j]| || w[0] != ks[j][0];
      }
    }
  }
}
