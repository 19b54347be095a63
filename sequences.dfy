/** Counting and distinctness over sequences, shared by the sentiment counts,
    the tagger, the word counter and the rating histogram. */
module Sequences {

  /** No element occurs twice. */
  predicate Distinct<T(==)>(s: seq<T>) {
    forall i, j :: 0 <= i < j < |s| ==> s[i] != s[j]
  }

  /** Distinctness is a property of the multiset of elements. */
  lemma {:induction false} DistinctIffSingletons<T>(s: seq<T>)
    ensures Distinct(s) <==> forall x :: multiset(s)[x] <= 1
  {
    if s != [] {
      var n := |s| - 1;
      var p := s[..n];
      DistinctIffSingletons(p);
      assert s == p + [s[n]];
      assert multiset(s) == multiset(p) + multiset{s[n]};
      if Distinct(s) {
        assert Distinct(p);
      } else {
        var i, j :| 0 <= i < j < |s| && s[i] == s[j];
        if j < n {
          assert p[i] == p[j];
          assert !Distinct(p);
          var x :| multiset(p)[x] > 1;
          assert multiset(s)[x] > 1;
        } else {
          assert s[i] in p;
          assert multiset(s)[s[n]] >= 2;
        }
      }
    }
  }

  /** How many times x occurs in s. */
  function Count<T(==)>(s: seq<T>, x: T): nat {
    if s == [] then 0
    else Count(s[..|s| - 1], x) + (if s[|s| - 1] == x then 1 else 0)
  }

  /** An element is counted at least once exactly when it occurs. */
  lemma {:induction false} CountPositive<T>(s: seq<T>, x: T)
    ensures Count(s, x) > 0 <==> x in s
  {
    if s != [] {
      CountPositive(s[..|s| - 1], x);
      assert s == s[..|s| - 1] + [s[|s| - 1]];
    }
  }

  /** The count is the multiplicity in the multiset of elements. */
  lemma {:induction false} CountIsMultiplicity<T>(s: seq<T>, x: T)
    ensures Count(s, x) == multiset(s)[x]
  {
    if s != [] {
      var n := |s| - 1;
      CountIsMultiplicity(s[..n], x);
      assert s == s[..n] + [s[n]];
      assert multiset(s) == multiset(s[..n]) + multiset{s[n]};
    }
  }

  /** The count is the number of positions that hold x. */
  lemma {:induction false} CountIsPositions<T>(s: seq<T>, x: T)
    ensures Count(s, x) == |set i | 0 <= i < |s| && s[i] == x|
  {
    if s != [] {
      var n := |s| - 1;
      CountIsPositions(s[..n], x);
      var before := set i | 0 <= i < n && s[..n][i] == x;
      var now := set i | 0 <= i < |s| && s[i] == x;
      assert before == set i | 0 <= i < n && s[i] == x;
      if s[n] == x {
        assert now == before + {n};
      } else {
        assert now == before;
      }
    }
  }

  /** x occurs in s at some position before one where y occurs. */
  ghost predicate Before<T>(s: seq<T>, x: T, y: T) {
    exists p, q :: 0 <= p < q < |s| && s[p] == x && s[q] == y
  }

  /** In h followed by rest, x comes before y when h is x and y follows, or
      when x comes before y within rest. */
  lemma BeforeCons<T>(h: T, rest: seq<T>, x: T, y: T)
    ensures Before([h] + rest, x, y) <==> (h == x && y in rest) || Before(rest, x, y)
  {
    var s := [h] + rest;
    if Before(s, x, y) {
      var p, q :| 0 <= p < q < |s| && s[p] == x && s[q] == y;
      assert rest[q - 1] == y;
      if p > 0 {
        assert rest[p - 1] == x;
      }
    }
    if h == x && y in rest {
      var q :| 0 <= q < |rest| && rest[q] == y;
      assert s[0] == x && s[q + 1] == y;
    }
    if Before(rest, x, y) {
      var p, q :| 0 <= p < q < |rest| && rest[p] == x && rest[q] == y;
      assert s[p + 1] == x && s[q + 1] == y;
    }
  }

  /** The position of the first x in s, or |s| when x does not occur. */
  function IndexOf<T(==)>(s: seq<T>, x: T): (r: nat)
    ensures r <= |s|
    ensures r < |s| <==> x in s
    ensures r < |s| ==> s[r] == x
    ensures forall i :: 0 <= i < r ==> s[i] != x
  {
    if s == [] then 0
    else if s[0] == x then 0
    else 1 + IndexOf(s[1..], x)
  }

  /** In a sequence without repeats, an element's index is its position. */
  lemma DistinctIndexOf<T>(s: seq<T>, i: nat)
    requires Distinct(s) && i < |s|
    ensures IndexOf(s, s[i]) == i
  {
  }
}
