/**
 * The part of Python's `collections.Counter` the corpus statistics rely on:
 * counting a sequence of strings and `most_common(n)`.
 *
 * A Counter is a dictionary, so its entries are kept in first-occurrence
 * order; `most_common(n)` sorts them by count, descending, with a stable sort
 * (ties stay in first-occurrence order) and keeps the first `n`; for `n <= 0`
 * it returns nothing.
 */
module Counting {

  /** One (item, count) pair of a Counter. */
  datatype Entry = Entry(term: string, count: nat)

  function Min(a: int, b: int): int
  {
    if a <= b then a else b
  }

  /** The items of a list of entries, in order. */
  function Terms(es: seq<Entry>): (ts: seq<string>)
    ensures |ts| == |es|
    ensures forall i :: 0 <= i < |es| ==> ts[i] == es[i].term
  {
    seq(|es|, i requires 0 <= i < |es| => es[i].term)
  }

  /** Position of the first occurrence of `x` in `xs`, or `|xs|` when absent. */
  function IndexOf(xs: seq<string>, x: string): (i: nat)
    ensures i <= |xs|
    ensures i < |xs| <==> x in xs
    ensures i < |xs| ==> xs[i] == x
    ensures forall j :: 0 <= j < i ==> xs[j] != x
  {
    if xs == [] then 0
    else if xs[0] == x then 0
    else 1 + IndexOf(xs[1..], x)
  }

  /** Position of the entry for `x` in `es`, or `|es|` when there is none. */
  function Find(es: seq<Entry>, x: string): (i: nat)
    ensures i <= |es|
    ensures i < |es| ==> es[i].term == x
    ensures forall j :: 0 <= j < i ==> es[j].term != x
  {
    if es == [] then 0
    else if es[0].term == x then 0
    else 1 + Find(es[1..], x)
  }

  /** Count one more occurrence of `x`: a new key goes at the end. */
  function Bump(es: seq<Entry>, x: string): seq<Entry>
  {
    var p := Find(es, x);
    if p < |es| then es[p := Entry(x, es[p].count + 1)] else es + [Entry(x, 1)]
  }

  /** `Counter(xs)`: the items are counted one after the other. */
  function Tally(xs: seq<string>): seq<Entry>
    decreases |xs|
  {
    if xs == [] then [] else Bump(Tally(xs[..|xs| - 1]), xs[|xs| - 1])
  }

  /** The sum of the counts. */
  function Total(es: seq<Entry>): nat
  {
    if es == [] then 0 else es[0].count + Total(es[1..])
  }

  predicate Distinct(es: seq<Entry>)
  {
    forall i, j :: 0 <= i < j < |es| ==> es[i].term != es[j].term
  }

  /** Every entry counts the occurrences of its item in `xs`. */
  predicate CountsOf(es: seq<Entry>, xs: seq<string>)
  {
    forall i :: 0 <= i < |es| ==> es[i].term in xs && es[i].count == multiset(xs)[es[i].term]
  }

  /** Entry `a` comes before entry `b` in `most_common`: a larger count, or the same count and an earlier first occurrence in `xs`. */
  predicate Before(xs: seq<string>, a: Entry, b: Entry)
  {
    a.count > b.count || (a.count == b.count && IndexOf(xs, a.term) < IndexOf(xs, b.term))
  }

  predicate RankedBy(s: seq<Entry>, xs: seq<string>)
  {
    forall i, j :: 0 <= i < j < |s| ==> Before(xs, s[i], s[j])
  }

  /** One step of a stable insertion sort on counts, descending: `e` goes before every entry whose count is not larger. */
  function Insert(e: Entry, s: seq<Entry>): (r: seq<Entry>)
    ensures multiset(r) == multiset(s) + multiset{e}
  {
    if s == [] || e.count >= s[0].count then [e] + s
    else
      assert s == [s[0]] + s[1..];
      [s[0]] + Insert(e, s[1..])
  }

  /** A stable sort by count, descending. */
  function SortByCount(es: seq<Entry>): (r: seq<Entry>)
    ensures multiset(r) == multiset(es)
  {
    if es == [] then []
    else
      assert es == [es[0]] + es[1..];
      Insert(es[0], SortByCount(es[1..]))
  }

  /** `Counter(xs).most_common(n)`. */
  function MostCommon(xs: seq<string>, n: int): seq<Entry>
  {
    if n <= 0 then [] else Ranking(xs)[..Min(n, |Ranking(xs)|)]
  }

  /** All entries of `Counter(xs)`, most common first. */
  function Ranking(xs: seq<string>): seq<Entry>
  {
    SortByCount(Tally(xs))
  }

  // ---------------------------------------------------------------------------
  // Counting
  // ---------------------------------------------------------------------------

  lemma {:induction false} IndexOfSnoc(ys: seq<string>, x: string, y: string)
    ensures IndexOf(ys + [x], y) == if y in ys then IndexOf(ys, y) else if y == x then |ys| else |ys| + 1
  {
    var i := IndexOf(ys + [x], y);
    if y in ys {
      var k := IndexOf(ys, y);
      assert (ys + [x])[k] == y;
    } else if y == x {
      assert (ys + [x])[|ys|] == x;
    } else {
      assert y !in ys + [x];
    }
  }

  lemma {:induction false} TotalUpdate(es: seq<Entry>, p: nat, e: Entry)
    requires p < |es|
    ensures Total(es[p := e]) + es[p].count == Total(es) + e.count
  {
    if p > 0 {
      assert es[p := e][1..] == es[1..][p - 1 := e];
      TotalUpdate(es[1..], p - 1, e);
    }
  }

  lemma {:induction false} TotalSnoc(es: seq<Entry>, e: Entry)
    ensures Total(es + [e]) == Total(es) + e.count
  {
    if es != [] {
      assert (es + [e])[1..] == es[1..] + [e];
      TotalSnoc(es[1..], e);
    }
  }

  lemma TallySnoc(xs: seq<string>)
    requires xs != []
    ensures xs == xs[..|xs| - 1] + [xs[|xs| - 1]]
    ensures Tally(xs) == Bump(Tally(xs[..|xs| - 1]), xs[|xs| - 1])
  {
    var ys := xs[..|xs| - 1];
    assert xs == ys + [xs[|xs| - 1]];
    assert Tally(xs) == Bump(Tally(ys), xs[|xs| - 1]);
  }

  lemma {:induction false} TallyTotal(xs: seq<string>)
    ensures Total(Tally(xs)) == |xs|
    decreases |xs|
  {
    if xs != [] {
      var ys, x := xs[..|xs| - 1], xs[|xs| - 1];
      TallySnoc(xs);
      TallyTotal(ys);
      var t := Tally(ys);
      var p := Find(t, x);
      if p < |t| {
        TotalUpdate(t, p, Entry(x, t[p].count + 1));
      } else {
        TotalSnoc(t, Entry(x, 1));
      }
    }
  }

  lemma {:induction false} TallyTerms(xs: seq<string>)
    ensures Terms(Tally(xs)) == Dedup(xs)
    decreases |xs|
  {
    if xs != [] {
      var ys, x := xs[..|xs| - 1], xs[|xs| - 1];
      TallySnoc(xs);
      TallyTerms(ys);
      DedupMembers(ys);
      var t := Tally(ys);
      var p := Find(t, x);
      if p < |t| {
        assert Terms(t)[p] == x;
        assert x in ys;
        assert Terms(Tally(xs)) == Terms(t);
      } else {
        assert x !in Terms(t) by {
          forall j | 0 <= j < |t| ensures Terms(t)[j] != x { }
        }
        assert Terms(Tally(xs)) == Terms(t) + [x];
      }
    }
  }

  lemma {:induction false} TallyCounts(xs: seq<string>)
    ensures forall i :: 0 <= i < |Tally(xs)| ==> Tally(xs)[i].count == multiset(xs)[Tally(xs)[i].term]
    decreases |xs|
  {
    if xs != [] {
      var ys, x := xs[..|xs| - 1], xs[|xs| - 1];
      TallySnoc(xs);
      TallyCounts(ys);
      TallyTerms(ys);
      DedupMembers(ys);
      assert multiset(xs) == multiset(ys) + multiset{x};
      var t := Tally(ys);
      var p := Find(t, x);
      if p < |t| {
        forall i | p < i < |t| ensures t[i].term != x {
          assert Terms(t)[p] == x && Terms(t)[i] == t[i].term;
        }
      } else {
        assert x !in Terms(t) by {
          forall j | 0 <= j < |t| ensures Terms(t)[j] != x { }
        }
        assert multiset(ys)[x] == 0;
      }
    }
  }

  /** `xs` without repetitions, each item at its first occurrence. */
  function Dedup(xs: seq<string>): seq<string>
    decreases |xs|
  {
    if xs == [] then []
    else
      var ys, x := xs[..|xs| - 1], xs[|xs| - 1];
      if x in ys then Dedup(ys) else Dedup(ys) + [x]
  }

  lemma {:induction false} DedupMembers(xs: seq<string>)
    ensures forall x :: x in Dedup(xs) <==> x in xs
    ensures forall i, j :: 0 <= i < j < |Dedup(xs)| ==> IndexOf(xs, Dedup(xs)[i]) < IndexOf(xs, Dedup(xs)[j])
    decreases |xs|
  {
    if xs != [] {
      var ys, x := xs[..|xs| - 1], xs[|xs| - 1];
      assert xs == ys + [x];
      DedupMembers(ys);
      forall y ensures IndexOf(xs, y) == if y in ys then IndexOf(ys, y) else if y == x then |ys| else |ys| + 1 {
        IndexOfSnoc(ys, x, y);
      }
      var d := Dedup(ys);
      if x !in ys {
        forall i | 0 <= i < |d| ensures IndexOf(xs, d[i]) < IndexOf(xs, x) {
          assert d[i] in ys;
        }
      }
    }
  }

  /** What a Counter holds: one entry per distinct item, in first-occurrence order, each with its number of occurrences. */
  lemma TallySpec(xs: seq<string>)
    ensures Distinct(Tally(xs))
    ensures CountsOf(Tally(xs), xs)
    ensures forall x :: x in xs <==> x in Terms(Tally(xs))
    ensures forall i, j :: 0 <= i < j < |Tally(xs)| ==> IndexOf(xs, Tally(xs)[i].term) < IndexOf(xs, Tally(xs)[j].term)
    ensures Total(Tally(xs)) == |xs|
  {
    var t := Tally(xs);
    TallyTotal(xs);
    TallyTerms(xs);
    TallyCounts(xs);
    DedupMembers(xs);
    forall i | 0 <= i < |t| ensures t[i].term in xs {
      assert Terms(t)[i] == t[i].term;
    }
    forall i, j | 0 <= i < j < |t| ensures IndexOf(xs, t[i].term) < IndexOf(xs, t[j].term) {
      assert Terms(t)[i] == t[i].term && Terms(t)[j] == t[j].term;
    }
  }

  // ---------------------------------------------------------------------------
  // Stable sort
  // ---------------------------------------------------------------------------

  lemma {:induction false} InsertRanked(xs: seq<string>, e: Entry, s: seq<Entry>)
    requires RankedBy(s, xs)
    requires forall y :: y in s ==> IndexOf(xs, e.term) < IndexOf(xs, y.term)
    ensures RankedBy(Insert(e, s), xs)
  {
    if s == [] || e.count >= s[0].count {
      forall y | y in s ensures Before(xs, e, y) {
        var m :| 0 <= m < |s| && s[m] == y;
        if m > 0 { assert Before(xs, s[0], s[m]); }
      }
      ConsRanked(xs, e, s);
    } else {
      forall y | y in s[1..] ensures IndexOf(xs, e.term) < IndexOf(xs, y.term) {
        assert y in s;
      }
      InsertRanked(xs, e, s[1..]);
      var t := Insert(e, s[1..]);
      forall y | y in t ensures Before(xs, s[0], y) {
        assert y in multiset(t);
        if y != e {
          assert y in multiset(s[1..]);
          HeadBefore(xs, s, y);
        }
      }
      ConsRanked(xs, s[0], t);
    }
  }

  /** An entry ranked before every entry of a ranked list can go in front of it. */
  lemma ConsRanked(xs: seq<string>, a: Entry, s: seq<Entry>)
    requires RankedBy(s, xs)
    requires forall y :: y in s ==> Before(xs, a, y)
    ensures RankedBy([a] + s, xs)
  {
    var r := [a] + s;
    forall i, j | 0 <= i < j < |r| ensures Before(xs, r[i], r[j]) {
      assert r[j] == s[j - 1];
      if i > 0 { assert r[i] == s[i - 1]; }
    }
  }

  /** The head of a ranked list is ranked before every later entry. */
  lemma HeadBefore(xs: seq<string>, s: seq<Entry>, y: Entry)
    requires RankedBy(s, xs) && |s| > 0 && y in s[1..]
    ensures Before(xs, s[0], y)
  {
    var m :| 0 <= m < |s[1..]| && s[1..][m] == y;
    assert s[m + 1] == y;
  }

  lemma {:induction false} SortRanked(xs: seq<string>, es: seq<Entry>)
    requires forall i, j :: 0 <= i < j < |es| ==> IndexOf(xs, es[i].term) < IndexOf(xs, es[j].term)
    ensures RankedBy(SortByCount(es), xs)
  {
    if es != [] {
      SortRanked(xs, es[1..]);
      var s := SortByCount(es[1..]);
      forall y | y in s ensures IndexOf(xs, es[0].term) < IndexOf(xs, y.term) {
        assert y in multiset(es[1..]);
        var m :| 0 <= m < |es[1..]| && es[1..][m] == y;
        assert es[m + 1] == y;
      }
      InsertRanked(xs, es[0], s);
    }
  }

  lemma {:induction false} PermutedCounts(xs: seq<string>, t: seq<Entry>, s: seq<Entry>)
    requires CountsOf(t, xs)
    requires multiset(s) == multiset(t)
    ensures CountsOf(s, xs)
  {
    forall i | 0 <= i < |s| ensures s[i].term in xs && s[i].count == multiset(xs)[s[i].term] {
      assert s[i] in multiset(t);
      var m :| 0 <= m < |t| && t[m] == s[i];
    }
  }

  /** Under exact counts, ranking leaves no item twice. */
  lemma RankedDistinct(xs: seq<string>, s: seq<Entry>)
    requires CountsOf(s, xs)
    requires RankedBy(s, xs)
    ensures Distinct(s)
  {
    forall i, j | 0 <= i < j < |s| ensures s[i].term != s[j].term {
      assert Before(xs, s[i], s[j]);
    }
  }

  // ---------------------------------------------------------------------------
  // most_common
  // ---------------------------------------------------------------------------

  function TermSet(es: seq<Entry>): set<string>
  {
    if es == [] then {} else {es[0].term} + TermSet(es[1..])
  }

  lemma {:induction false} TermSetCard(es: seq<Entry>)
    requires Distinct(es)
    ensures forall x :: x in TermSet(es) <==> x in Terms(es)
    ensures |TermSet(es)| == |es|
  {
    if es != [] {
      TermSetCard(es[1..]);
      assert Terms(es) == [es[0].term] + Terms(es[1..]);
      assert es[0].term !in Terms(es[1..]) by {
        forall j | 0 <= j < |es| - 1 ensures Terms(es[1..])[j] != es[0].term {
          assert es[1..][j] == es[j + 1];
        }
      }
    }
  }

  /** The number of distinct items of `xs`. */
  function DistinctCount(xs: seq<string>): nat
  {
    |set x | x in xs|
  }

  lemma TallyLength(xs: seq<string>)
    ensures |Tally(xs)| == DistinctCount(xs)
  {
    TallySpec(xs);
    TermSetCard(Tally(xs));
    assert (set x | x in xs) == TermSet(Tally(xs));
  }

  /** The full ranking holds every item of `xs` once, with its count, in `most_common` order. */
  lemma RankingSpec(xs: seq<string>)
    ensures |Ranking(xs)| == DistinctCount(xs)
    ensures CountsOf(Ranking(xs), xs)
    ensures RankedBy(Ranking(xs), xs)
    ensures forall w :: w in xs ==> Entry(w, multiset(xs)[w]) in Ranking(xs)
  {
    var t := Tally(xs);
    var s := Ranking(xs);
    TallySpec(xs);
    TallyLength(xs);
    SortRanked(xs, t);
    PermutedCounts(xs, t, s);
    assert |s| == |t| by { assert |multiset(s)| == |multiset(t)|; }
    forall w | w in xs ensures Entry(w, multiset(xs)[w]) in s {
      assert w in Terms(t);
      var m :| 0 <= m < |t| && Terms(t)[m] == w;
      assert t[m] in multiset(s);
    }
  }

  lemma PrefixLeftOut(xs: seq<string>, s: seq<Entry>, k: nat, w: string)
    requires RankedBy(s, xs)
    requires k <= |s|
    requires Entry(w, multiset(xs)[w]) in s
    requires w !in Terms(s[..k])
    ensures forall i :: 0 <= i < k ==> Before(xs, s[i], Entry(w, multiset(xs)[w]))
  {
    var p :| 0 <= p < |s| && s[p] == Entry(w, multiset(xs)[w]);
  }

  /**
   * `most_common(n)`: `min(n, #distinct)` entries (none for `n <= 0`), no item
   * twice, exact counts, counts non-increasing with ties in first-occurrence
   * order, and every item left out ranks after every item kept.
   */
  lemma MostCommonSpec(xs: seq<string>, n: int)
    ensures |MostCommon(xs, n)| == if n <= 0 then 0 else Min(n, DistinctCount(xs))
    ensures Distinct(MostCommon(xs, n))
    ensures CountsOf(MostCommon(xs, n), xs)
    ensures RankedBy(MostCommon(xs, n), xs)
    ensures forall i, w :: 0 <= i < |MostCommon(xs, n)| && w in xs && w !in Terms(MostCommon(xs, n)) ==>
      Before(xs, MostCommon(xs, n)[i], Entry(w, multiset(xs)[w]))
  {
    RankingSpec(xs);
    var s := Ranking(xs);
    var r := MostCommon(xs, n);
    var k := if n <= 0 then 0 else Min(n, |s|);
    assert r == s[..k];
    forall w | w in xs && w !in Terms(r) ensures forall i :: 0 <= i < k ==> Before(xs, s[i], Entry(w, multiset(xs)[w])) {
      PrefixLeftOut(xs, s, k, w);
    }
    RankedDistinct(xs, r);
  }
}
