/** Worked examples of the corpus statistics of notebooks/text_processing.py, proved. */
module CorpusExamples {
  import opened Strings
  import opened Counting
  import opened CorpusStats

  lemma SplitAAB(s: string)
    requires s == "a a b"
    ensures Split(s) == ["a", "a", "b"]
  {
    var ws := ["a", "a", "b"];
    assert ws[1..] == ["a", "b"] && ws[1..][1..] == ["b"];
    assert JoinWith(" ", ws) == s;
    SplitJoin(ws);
  }

  lemma SplitBC(s: string)
    requires s == "b c"
    ensures Split(s) == ["b", "c"]
  {
    var ws := ["b", "c"];
    assert ws[1..] == ["c"];
    assert JoinWith(" ", ws) == s;
    SplitJoin(ws);
  }

  lemma TokensExample(cs: seq<string>)
    requires cs == ["a a b", "b c"]
    ensures Tokens(cs) == ["a", "a", "b", "b", "c"]
  {
    SplitAAB(cs[0]);
    SplitBC(cs[1]);
    assert cs[1..] == ["b c"] && cs[1..][1..] == [];
    assert Tokens(cs[1..][1..]) == [];
    assert Tokens(cs[1..]) == ["b", "c"];
  }

  /** One more item on a prefix whose tally is known. */
  lemma TallyStep(xs: seq<string>, prev: seq<Entry>, next: seq<Entry>)
    requires xs != [] && Tally(xs[..|xs| - 1]) == prev && Bump(prev, xs[|xs| - 1]) == next
    ensures Tally(xs) == next
  {
    TallySnoc(xs);
  }

  lemma BumpNew(es: seq<Entry>, x: string)
    requires Find(es, x) == |es|
    ensures Bump(es, x) == es + [Entry(x, 1)]
  {
  }

  lemma BumpExisting(es: seq<Entry>, x: string, p: nat)
    requires p < |es| && Find(es, x) == p
    ensures Bump(es, x) == es[p := Entry(x, es[p].count + 1)]
  {
  }

  lemma TallyA(xs: seq<string>)
    requires xs == ["a"]
    ensures Tally(xs) == [Entry("a", 1)]
  {
    BumpNew([], "a");
    TallyStep(xs, [], [Entry("a", 1)]);
  }

  lemma TallyAA(xs: seq<string>)
    requires xs == ["a", "a"]
    ensures Tally(xs) == [Entry("a", 2)]
  {
    TallyA(xs[..1]);
    BumpExisting([Entry("a", 1)], "a", 0);
    TallyStep(xs, [Entry("a", 1)], [Entry("a", 2)]);
  }

  lemma TallyAAB(xs: seq<string>)
    requires xs == ["a", "a", "b"]
    ensures Tally(xs) == [Entry("a", 2), Entry("b", 1)]
  {
    var e := [Entry("a", 2)];
    TallyAA(xs[..2]);
    assert Find(e, "b") == 1 by { assert e[0].term != "b"; }
    BumpNew(e, "b");
    TallyStep(xs, e, e + [Entry("b", 1)]);
  }

  lemma TallyAABB(xs: seq<string>)
    requires xs == ["a", "a", "b", "b"]
    ensures Tally(xs) == [Entry("a", 2), Entry("b", 2)]
  {
    var e := [Entry("a", 2), Entry("b", 1)];
    TallyAAB(xs[..3]);
    assert Find(e, "b") == 1 by { assert e[0].term != "b"; }
    BumpExisting(e, "b", 1);
    TallyStep(xs, e, [Entry("a", 2), Entry("b", 2)]);
  }

  lemma TallyExample(xs: seq<string>)
    requires xs == ["a", "a", "b", "b", "c"]
    ensures Tally(xs) == [Entry("a", 2), Entry("b", 2), Entry("c", 1)]
  {
    var e := [Entry("a", 2), Entry("b", 2)];
    TallyAABB(xs[..4]);
    assert Find(e, "c") == 2 by { assert e[0].term != "c" && e[1].term != "c"; }
    BumpNew(e, "c");
    TallyStep(xs, e, e + [Entry("c", 1)]);
  }

  lemma SortExample(es: seq<Entry>)
    requires es == [Entry("a", 2), Entry("b", 2), Entry("c", 1)]
    ensures SortByCount(es) == es
  {
    assert es[1..][1..] == [Entry("c", 1)] && es[1..][1..][1..] == [];
    assert SortByCount(es[1..][1..]) == [Entry("c", 1)];
    assert SortByCount(es[1..]) == es[1..];
  }

  /** `get_word_counts(["a a b", "b c"], top_n=2)` is `[("a", 2), ("b", 2)]`: the tie between a and b keeps first-occurrence order. */
  lemma WordCountsExample(cs: seq<string>)
    requires cs == ["a a b", "b c"]
    ensures WordCounts(cs, 2) == [Entry("a", 2), Entry("b", 2)]
  {
    WordCountsSpec(cs, 2);
    TokensExample(cs);
    TallyExample(Tokens(cs));
    SortExample(Tally(Tokens(cs)));
  }

  lemma SplitTheCatSat(s: string)
    requires s == "the cat sat"
    ensures Split(s) == ["the", "cat", "sat"]
  {
    var ws := ["the", "cat", "sat"];
    assert ws[1..] == ["cat", "sat"] && ws[1..][1..] == ["sat"];
    assert JoinWith(" ", ws) == s;
    SplitJoin(ws);
  }

  lemma BigramListExample(cs: seq<string>)
    requires cs == ["the cat sat"]
    ensures AllBigrams(cs) == ["the cat", "cat sat"]
  {
    assert cs[..0] == [] && cs[|cs| - 1] == cs[0];
    assert AllBigrams(cs) == Bigrams(Split(cs[0]));
    SplitTheCatSat(cs[0]);
    PairsExample(Split(cs[0]));
  }

  lemma PairsExample(ws: seq<string>)
    requires ws == ["the", "cat", "sat"]
    ensures Bigrams(ws) == ["the cat", "cat sat"]
  {
    var bs := Bigrams(ws);
    assert |bs| == 2 && bs[0] == ws[0] + " " + ws[1] && bs[1] == ws[1] + " " + ws[2];
    assert ws[0] + " " + ws[1] == "the cat";
    assert ws[1] + " " + ws[2] == "cat sat";
  }

  lemma BigramTallyExample(xs: seq<string>)
    requires xs == ["the cat", "cat sat"]
    ensures Tally(xs) == [Entry("the cat", 1), Entry("cat sat", 1)]
  {
    assert xs[..1][..0] == [] && xs[..2][..1] == xs[..1] && xs[..2] == xs;
    TallySnoc(xs[..1]);
    assert Tally(xs[..1]) == [Entry("the cat", 1)];
    TallySnoc(xs);
    assert Find(Tally(xs[..1]), "cat sat") == 1;
  }

  /** `get_bigram_counts(["the cat sat"])` is `[("the cat", 1), ("cat sat", 1)]`. */
  lemma BigramCountsExample(cs: seq<string>)
    requires cs == ["the cat sat"]
    ensures MostCommon(AllBigrams(cs), 20) == [Entry("the cat", 1), Entry("cat sat", 1)]
  {
    BigramListExample(cs);
    BigramTallyExample(AllBigrams(cs));
    var t := Tally(AllBigrams(cs));
    assert t[1..][1..] == [];
    assert SortByCount(t) == t;
  }

  /** A post without comments has all three statistics 0. */
  lemma EmptyPostExample()
    ensures Stats([]) == PostStats(0.0, 0, 0)
  {
    StatsSpec([]);
  }
}
