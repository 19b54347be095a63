/** Ranking of (name, count) pairs by count, largest first, as Python's
    stable sorted(..., key=count, reverse=True) and Counter.most_common do:
    entries with equal counts keep their original relative order. */
module Ranking {
  import opened Sequences

  type Entry = (string, nat)

  predicate SortedByCountDesc(s: seq<Entry>) {
    forall i, j :: 0 <= i < j < |s| ==> s[i].1 >= s[j].1
  }

  /** The entries of s whose count is k, in their order in s. */
  function WithCount(s: seq<Entry>, k: nat): seq<Entry> {
    if s == [] then []
    else (if s[0].1 == k then [s[0]] else []) + WithCount(s[1..], k)
  }

  /** Places e in front of the first entry whose count is not larger. */
  function InsertByCount(e: Entry, s: seq<Entry>): seq<Entry> {
    if s == [] || e.1 >= s[0].1 then [e] + s
    else [s[0]] + InsertByCount(e, s[1..])
  }

  /** Stable sort by count, largest first: sorted, a permutation of the input,
      and for every count the entries with that count in input order. */
  function SortByCountDesc(s: seq<Entry>): (r: seq<Entry>)
    ensures SortedByCountDesc(r)
    ensures multiset(r) == multiset(s) && |r| == |s|
    ensures forall k :: WithCount(r, k) == WithCount(s, k)
  {
    if s == [] then []
    else
      var rest := SortByCountDesc(s[1..]);
      InsertKeepsOrder(s[0], rest);
      assert s == [s[0]] + s[1..];
      InsertByCount(s[0], rest)
  }

  lemma InsertKeepsOrder(e: Entry, s: seq<Entry>)
    requires SortedByCountDesc(s)
    ensures SortedByCountDesc(InsertByCount(e, s))
    ensures multiset(InsertByCount(e, s)) == multiset(s) + multiset{e}
    ensures forall k :: WithCount(InsertByCount(e, s), k) == WithCount([e] + s, k)
  {
    InsertKeepsSorted(e, s);
    InsertIsPermutation(e, s);
    forall k ensures WithCount(InsertByCount(e, s), k) == WithCount([e] + s, k) {
      InsertKeepsTies(e, s, k);
    }
  }

  lemma {:induction false} InsertIsPermutation(e: Entry, s: seq<Entry>)
    ensures multiset(InsertByCount(e, s)) == multiset(s) + multiset{e}
  {
    if s != [] && e.1 < s[0].1 {
      InsertIsPermutation(e, s[1..]);
      assert s == [s[0]] + s[1..];
    }
  }

  /** Inserting below a bound keeps every count below that bound. */
  lemma {:induction false} InsertBounded(e: Entry, s: seq<Entry>, b: nat)
    requires e.1 <= b && forall i :: 0 <= i < |s| ==> s[i].1 <= b
    ensures forall i :: 0 <= i < |InsertByCount(e, s)| ==> InsertByCount(e, s)[i].1 <= b
  {
    if s != [] && e.1 < s[0].1 {
      InsertBounded(e, s[1..], b);
      var tail := InsertByCount(e, s[1..]);
      assert InsertByCount(e, s) == [s[0]] + tail;
    }
  }

  lemma {:induction false} InsertKeepsSorted(e: Entry, s: seq<Entry>)
    requires SortedByCountDesc(s)
    ensures SortedByCountDesc(InsertByCount(e, s))
  {
    if s != [] && e.1 < s[0].1 {
      InsertKeepsSorted(e, s[1..]);
      InsertBounded(e, s[1..], s[0].1);
      var tail := InsertByCount(e, s[1..]);
      var r := [s[0]] + tail;
      assert InsertByCount(e, s) == r;
      forall i, j | 0 <= i < j < |r| ensures r[i].1 >= r[j].1 {
        if i == 0 {
          assert r[j] == tail[j - 1];
        } else {
          assert r[i] == tail[i - 1] && r[j] == tail[j - 1];
        }
      }
    }
  }

  lemma {:induction false} InsertKeepsTies(e: Entry, s: seq<Entry>, k: nat)
    ensures WithCount(InsertByCount(e, s), k) == WithCount([e] + s, k)
  {
    if s != [] && e.1 < s[0].1 {
      InsertKeepsTies(e, s[1..], k);
      var rest := WithCount(s[1..], k);
      var head := if s[0].1 == k then [s[0]] else [];
      var mine := if e.1 == k then [e] else [];
      var r := [s[0]] + InsertByCount(e, s[1..]);
      assert r[1..] == InsertByCount(e, s[1..]);
      assert ([e] + s)[1..] == s;
      assert ([e] + s[1..])[1..] == s[1..];
      assert WithCount(r, k) == head + WithCount([e] + s[1..], k);
      assert WithCount([e] + s[1..], k) == mine + rest;
      assert WithCount(s, k) == head + rest;
      assert WithCount([e] + s, k) == mine + (head + rest);
      assert head == [] || mine == [];
    }
  }

  /** The entries with count k are exactly the entries of s with that count. */
  lemma {:induction false} WithCountMembers(s: seq<Entry>, k: nat)
    ensures forall e :: e in WithCount(s, k) <==> e in s && e.1 == k
  {
    if s != [] {
      WithCountMembers(s[1..], k);
      assert s == [s[0]] + s[1..];
    }
  }

  /** Filtering by a count keeps the relative order of entries with that count. */
  lemma {:induction false} WithCountBefore(s: seq<Entry>, k: nat, x: Entry, y: Entry)
    requires x.1 == k && y.1 == k
    ensures Before(WithCount(s, k), x, y) <==> Before(s, x, y)
  {
    if s != [] {
      var h, rest := s[0], s[1..];
      assert s == [h] + rest;
      WithCountBefore(rest, k, x, y);
      BeforeCons(h, rest, x, y);
      if h.1 == k {
        WithCountMembers(rest, k);
        assert WithCount(s, k) == [h] + WithCount(rest, k);
        BeforeCons(h, WithCount(rest, k), x, y);
      } else {
        assert WithCount(s, k) == WithCount(rest, k);
      }
    }
  }

  /** Stability: two entries of the sorted list with equal counts appear in
      the same order in the input. */
  lemma TiesKeepOrder(s: seq<Entry>, i: nat, j: nat)
    requires i < j < |SortByCountDesc(s)|
    requires SortByCountDesc(s)[i].1 == SortByCountDesc(s)[j].1
    ensures Before(s, SortByCountDesc(s)[i], SortByCountDesc(s)[j])
  {
    var r := SortByCountDesc(s);
    var k := r[i].1;
    assert Before(r, r[i], r[j]);
    WithCountBefore(r, k, r[i], r[j]);
    WithCountBefore(s, k, r[i], r[j]);
  }

  /** How many entries a top-n selection from `available` entries keeps:
      n of them, but none when n is not positive and all when fewer exist. */
  function TopCount(n: int, available: nat): nat {
    if n <= 0 then 0 else if n < available then n else available
  }

  /** The first n entries (all of them when n is at least the length, none
      when n is not positive), as Python's slice s[:n] for n >= 0. */
  function Take<T>(s: seq<T>, n: int): (r: seq<T>)
    ensures |r| == TopCount(n, |s|)
    ensures r == s[..|r|]
  {
    if n <= 0 then [] else if n < |s| then s[..n] else s
  }

  /** The best n entries: n of them (all when fewer exist, none when n is
      not positive), largest count first, and every entry left out has a
      count no larger than any entry kept. */
  lemma TopEntries(s: seq<Entry>, n: int)
    ensures |Take(SortByCountDesc(s), n)| == TopCount(n, |s|)
    ensures SortedByCountDesc(Take(SortByCountDesc(s), n))
    ensures forall e :: e in Take(SortByCountDesc(s), n) ==> e in s
  {
    var sorted := SortByCountDesc(s);
    var r := Take(sorted, n);
    forall e | e in r ensures e in s {
      assert e in multiset(sorted);
    }
  }

  /** No entry left out of the first n has a larger count than a kept one. */
  lemma TopEntriesDominate(s: seq<Entry>, n: int)
    ensures forall e, i :: e in s && e !in Take(SortByCountDesc(s), n) && 0 <= i < |Take(SortByCountDesc(s), n)| ==>
              Take(SortByCountDesc(s), n)[i].1 >= e.1
  {
    var sorted := SortByCountDesc(s);
    var r := Take(sorted, n);
    forall e, i | e in s && e !in r && 0 <= i < |r| ensures r[i].1 >= e.1 {
      assert e in multiset(sorted);
      var j :| 0 <= j < |sorted| && sorted[j] == e;
      assert r[i] == sorted[i];
    }
  }
}
