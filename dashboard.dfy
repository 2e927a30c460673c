/**
 * The data logic of the two dashboard pages of streamlit_app.py that work on
 * fetched posts: the Query Builder's term selection and query preview, and
 * the District Comparison's guard, row tagging, label counts, summary table,
 * colour mapping and closing insight. Widgets and charts are not modelled.
 */
module Dashboard {
  import opened Wrappers
  import opened Strings
  import opened Sentiment
  import opened Credentials
  import opened Fetch

  // ---------------------------------------------------------------------------
  // Query Builder
  // ---------------------------------------------------------------------------

  /** The checkbox terms, in the order the page lists them. */
  const SearchTerms: seq<string> := ["schools", "district", "education", "homework", "teachers", "students"]

  /** The names whose flag is set, in the order given. */
  function Checked(names: seq<string>, flags: seq<bool>): seq<string>
    requires |flags| == |names|
  {
    if names == [] then []
    else (if flags[0] then [names[0]] else []) + Checked(names[1..], flags[1..])
  }

  /** `selected_terms`: the ticked boxes' terms. */
  function SelectTerms(flags: seq<bool>): seq<string>
    requires |flags| == |SearchTerms|
  {
    Checked(SearchTerms, flags)
  }

  lemma {:induction false} CheckedSpec(names: seq<string>, flags: seq<bool>)
    requires |flags| == |names|
    ensures IsSubseq(Checked(names, flags), names)
    ensures forall t :: t in Checked(names, flags) <==> exists i :: 0 <= i < |names| && flags[i] && names[i] == t
  {
    if names != [] {
      CheckedSpec(names[1..], flags[1..]);
      var rest := Checked(names[1..], flags[1..]);
      if flags[0] {
        assert Checked(names, flags) == [names[0]] + rest;
        SubseqPrefix([names[0]], rest, names[1..]);
      } else {
        assert Checked(names, flags) == rest;
        SubseqPrefix([names[0]], rest, names[1..]);
      }
      assert names == [names[0]] + names[1..];
      forall t ensures t in Checked(names, flags) <==> exists i :: 0 <= i < |names| && flags[i] && names[i] == t {
        if t in Checked(names, flags) && !(flags[0] && names[0] == t) {
          assert t in rest;
          var i :| 0 <= i < |names| - 1 && flags[1..][i] && names[1..][i] == t;
          assert flags[i + 1] && names[i + 1] == t;
        }
        if exists i :: 0 <= i < |names| && flags[i] && names[i] == t {
          var i :| 0 <= i < |names| && flags[i] && names[i] == t;
          if i > 0 {
            assert flags[1..][i - 1] && names[1..][i - 1] == t;
          }
        }
      }
    }
  }

  /** The selected terms are exactly the ticked ones, in the page's fixed order. */
  lemma SelectTermsSpec(flags: seq<bool>)
    requires |flags| == |SearchTerms|
    ensures IsSubseq(SelectTerms(flags), SearchTerms)
    ensures forall i :: 0 <= i < |SearchTerms| ==> (SearchTerms[i] in SelectTerms(flags) <==> flags[i])
  {
    CheckedSpec(SearchTerms, flags);
    forall i | 0 <= i < |SearchTerms| ensures SearchTerms[i] in SelectTerms(flags) <==> flags[i] {
      if SearchTerms[i] in SelectTerms(flags) {
        var j :| 0 <= j < |SearchTerms| && flags[j] && SearchTerms[j] == SearchTerms[i];
        assert i == j by {
          assert SearchTerms[0][0] == 's' && SearchTerms[1][0] == 'd' && SearchTerms[2][0] == 'e';
          assert SearchTerms[3][0] == 'h' && SearchTerms[4][0] == 't' && SearchTerms[5][0] == 's';
          assert SearchTerms[0][1] == 'c' && SearchTerms[5][1] == 't';
        }
      }
    }
  }

  /** The Query Builder's query: the fetch query when a term is selected, otherwise the bare district name. */
  function BuilderQuery(district: string, selected: seq<string>): string
  {
    if selected != [] then Query(district, selected) else district
  }

  /**
   * The previewed query is the one searched whenever a term is selected; with
   * none it shows the bare district, while the search itself uses "district ()".
   */
  lemma BuilderQueryVsFetch(district: string, selected: seq<string>)
    ensures BuilderQuery(district, selected) == Query(district, selected) <==> selected != []
    ensures selected == [] ==> BuilderQuery(district, selected) == district && Query(district, selected) == district + " ()"
  {
    if selected == [] {
      assert |Query(district, selected)| == |district| + 3;
    }
  }

  // ---------------------------------------------------------------------------
  // District Comparison
  // ---------------------------------------------------------------------------

  /** `color_sentiment`: the cell style of a label. */
  function ColorSentiment(val: string): string
  {
    "background-color: " + (if val == "Positive" then "lightgreen" else if val == "Negative" then "salmon" else "lightgray")
  }

  /** Positive is light green, Negative salmon, and every other value, Neutral included, light gray. */
  lemma ColorSentimentSpec(val: string)
    ensures ColorSentiment(LabelName(Positive)) == "background-color: lightgreen"
    ensures ColorSentiment(LabelName(Negative)) == "background-color: salmon"
    ensures ColorSentiment(LabelName(Neutral)) == "background-color: lightgray"
    ensures val != "Positive" && val != "Negative" ==> ColorSentiment(val) == "background-color: lightgray"
  {
    LabelNameInjective(Neutral, Positive);
    LabelNameInjective(Neutral, Negative);
  }

  /** `df["district"] = name`: every row gets the district column set to `name`. */
  function TagDistrict(rows: seq<PostRow>, name: string): (tagged: seq<PostRow>)
    ensures |tagged| == |rows|
    ensures forall i :: 0 <= i < |rows| ==> tagged[i] == rows[i].(district := name)
  {
    seq(|rows|, i requires 0 <= i < |rows| => rows[i].(district := name))
  }

  /** The number of rows whose label is `tag`. */
  function CountLabel(rows: seq<PostRow>, tag: string): nat
  {
    if rows == [] then 0 else (if rows[0].sentimentLabel == tag then 1 else 0) + CountLabel(rows[1..], tag)
  }

  /** The number of rows of district `d` whose label is `tag`: one cell of the grouped counts. */
  function GroupCount(rows: seq<PostRow>, d: string, tag: string): nat
  {
    if rows == [] then 0
    else (if rows[0].district == d && rows[0].sentimentLabel == tag then 1 else 0) + GroupCount(rows[1..], d, tag)
  }

  /** The number of rows of district `d`. */
  function DistrictSize(rows: seq<PostRow>, d: string): nat
  {
    if rows == [] then 0 else (if rows[0].district == d then 1 else 0) + DistrictSize(rows[1..], d)
  }

  /** Every row's label is one of the three label names. */
  predicate Labelled(rows: seq<PostRow>)
  {
    forall i :: 0 <= i < |rows| ==> IsLabelName(rows[i].sentimentLabel)
  }

  predicate IsLabelName(s: string)
  {
    s == "Positive" || s == "Negative" || s == "Neutral"
  }

  function SumScores(rows: seq<PostRow>): real
  {
    if rows == [] then 0.0 else rows[0].sentimentScore as real + SumScores(rows[1..])
  }

  /** A column mean; None stands for the NaN of an empty column. */
  function Average(total: real, n: nat): Option<real>
  {
    if n == 0 then None else Some(total / n as real)
  }

  /** One row of the summary table, before rounding. */
  datatype SummaryRow = SummaryRow(district: string, posts: nat, avgSentiment: Option<real>,
                                   pctPositive: Option<real>, pctNegative: Option<real>)

  function SummaryOf(rows: seq<PostRow>, name: string): SummaryRow
  {
    SummaryRow(name, |rows|, Average(SumScores(rows), |rows|),
               Average(100.0 * CountLabel(rows, "Positive") as real, |rows|),
               Average(100.0 * CountLabel(rows, "Negative") as real, |rows|))
  }

  /** The summary table: one row per (posts, district) pair, appended in order. */
  method SummaryTable(pairs: seq<(seq<PostRow>, string)>) returns (table: seq<SummaryRow>)
    ensures |table| == |pairs|
    ensures forall i :: 0 <= i < |pairs| ==> table[i] == SummaryOf(pairs[i].0, pairs[i].1)
  {
    table := [];
    for i := 0 to |pairs|
      invariant |table| == i
      invariant forall k :: 0 <= k < i ==> table[k] == SummaryOf(pairs[k].0, pairs[k].1)
    {
      var (rows, name) := pairs[i];
      var n := |rows|;
      table := table + [SummaryRow(name, n, Average(SumScores(rows), n),
                                   Average(100.0 * CountLabel(rows, "Positive") as real, n),
                                   Average(100.0 * CountLabel(rows, "Negative") as real, n))];
    }
  }

  /** The closing remark. */
  datatype Insight = FirstMorePositive | SecondMorePositive | Similar

  function InsightOf(avg1: real, avg2: real): (r: Insight)
    ensures r == FirstMorePositive <==> avg1 > avg2
    ensures r == SecondMorePositive <==> avg2 > avg1
    ensures r == Similar <==> avg1 == avg2
  {
    if avg1 > avg2 then FirstMorePositive else if avg2 > avg1 then SecondMorePositive else Similar
  }

  /** Swapping the districts swaps the remark. */
  lemma InsightSymmetric(avg1: real, avg2: real)
    ensures InsightOf(avg2, avg1) == match InsightOf(avg1, avg2)
      case FirstMorePositive => SecondMorePositive
      case SecondMorePositive => FirstMorePositive
      case Similar => Similar
  {
  }

  /** What a comparison run shows. */
  datatype Outcome =
    | FetchFailed(error: ConnectError)
    | NoResults
    | Report(combined: seq<PostRow>, avg1: real, avg2: real, summary: seq<SummaryRow>, insight: Insight)

  /** The comparison once both fetches are in: the guard, tagging, averages, summary table and insight. */
  method RunComparison(d1: string, d2: string,
                       f1: Result<seq<PostRow>, ConnectError>, f2: Result<seq<PostRow>, ConnectError>)
    returns (o: Outcome)
    ensures f1.Failure? ==> o == FetchFailed(f1.error)
    ensures f1.Success? && f2.Failure? ==> o == FetchFailed(f2.error)
    ensures f1.Success? && f2.Success? && (f1.value == [] || f2.value == []) ==> o == NoResults
    ensures o.Report? ==>
      f1.Success? && f2.Success? && f1.value != [] && f2.value != [] &&
      o.combined == TagDistrict(f1.value, d1) + TagDistrict(f2.value, d2) &&
      o.avg1 == SumScores(f1.value) / |f1.value| as real &&
      o.avg2 == SumScores(f2.value) / |f2.value| as real &&
      o.summary == [SummaryOf(f1.value, d1), SummaryOf(f2.value, d2)] &&
      o.insight == InsightOf(o.avg1, o.avg2)
    ensures f1.Success? && f2.Success? && f1.value != [] && f2.value != [] ==> o.Report?
  {
    if f1.Failure? {
      return FetchFailed(f1.error);
    }
    if f2.Failure? {
      return FetchFailed(f2.error);
    }
    var df1, df2 := f1.value, f2.value;
    if df1 == [] || df2 == [] {
      return NoResults;
    }
    df1 := TagDistrict(df1, d1);
    df2 := TagDistrict(df2, d2);
    var combined := df1 + df2;
    var summary := SummaryTable([(df1, d1), (df2, d2)]);
    SummaryUntagged(f1.value, d1);
    SummaryUntagged(f2.value, d2);
    var avg1 := SumScores(df1) / |df1| as real;
    var avg2 := SumScores(df2) / |df2| as real;
    return Report(combined, avg1, avg2, summary, InsightOf(avg1, avg2));
  }

  // ---------------------------------------------------------------------------
  // Properties of the aggregates
  // ---------------------------------------------------------------------------

  /** Tagging leaves scores and labels alone, so the summary and the mean are those of the fetched rows. */
  lemma {:induction false} SummaryUntagged(rows: seq<PostRow>, name: string)
    ensures SummaryOf(TagDistrict(rows, name), name) == SummaryOf(rows, name)
    ensures SumScores(TagDistrict(rows, name)) == SumScores(rows)
  {
    TaggedAggregates(rows, name);
  }

  lemma {:induction false} TaggedAggregates(rows: seq<PostRow>, name: string)
    ensures SumScores(TagDistrict(rows, name)) == SumScores(rows)
    ensures forall l :: CountLabel(TagDistrict(rows, name), l) == CountLabel(rows, l)
  {
    if rows != [] {
      assert TagDistrict(rows, name)[1..] == TagDistrict(rows[1..], name);
      TaggedAggregates(rows[1..], name);
    }
  }

  lemma {:induction false} SumScoresBounds(rows: seq<PostRow>)
    ensures -(|rows| as real) <= SumScores(rows) <= |rows| as real
  {
    if rows != [] {
      SumScoresBounds(rows[1..]);
    }
  }

  lemma {:induction false} TwoLabelsBound(rows: seq<PostRow>, a: string, b: string)
    requires a != b
    ensures CountLabel(rows, a) + CountLabel(rows, b) <= |rows|
  {
    if rows != [] {
      TwoLabelsBound(rows[1..], a, b);
    }
  }

  /**
   * A summary row, before rounding: `# Posts` is the row count; for a
   * non-empty district the mean lies in [-1, 1], each percentage in [0, 100],
   * and the two percentages add up to at most 100; for an empty one all three
   * are NaN.
   */
  lemma SummarySpec(rows: seq<PostRow>, name: string)
    ensures SummaryOf(rows, name).district == name && SummaryOf(rows, name).posts == |rows|
    ensures rows == [] <==> SummaryOf(rows, name).avgSentiment == None
    ensures rows == [] ==> SummaryOf(rows, name).pctPositive == None && SummaryOf(rows, name).pctNegative == None
    ensures rows != [] ==>
      var s := SummaryOf(rows, name);
      s.avgSentiment.Some? && s.pctPositive.Some? && s.pctNegative.Some? &&
      -1.0 <= s.avgSentiment.value <= 1.0 &&
      0.0 <= s.pctPositive.value <= 100.0 && 0.0 <= s.pctNegative.value <= 100.0 &&
      s.pctPositive.value + s.pctNegative.value <= 100.0
  {
    if rows != [] {
      var n := |rows| as real;
      SumScoresBounds(rows);
      DivBounds(SumScores(rows), n);
      TwoLabelsBound(rows, "Positive", "Negative");
      PercentPair(CountLabel(rows, "Positive") as real, CountLabel(rows, "Negative") as real, n);
    }
  }

  /** Two disjoint shares of `n` items, as percentages. */
  lemma PercentPair(p: real, q: real, n: real)
    requires n > 0.0 && 0.0 <= p && 0.0 <= q && p + q <= n
    ensures 0.0 <= 100.0 * p / n <= 100.0 && 0.0 <= 100.0 * q / n <= 100.0
    ensures 100.0 * p / n + 100.0 * q / n <= 100.0
  {
    assert 100.0 * p / n + 100.0 * q / n == 100.0 * (p + q) / n;
    PercentBound(100.0 * p, n);
    PercentBound(100.0 * q, n);
    PercentBound(100.0 * (p + q), n);
  }

  lemma DivBounds(x: real, n: real)
    requires n > 0.0 && -n <= x <= n
    ensures -1.0 <= x / n <= 1.0
  {
  }

  lemma PercentBound(x: real, n: real)
    requires n > 0.0 && 0.0 <= x <= 100.0 * n
    ensures 0.0 <= x / n <= 100.0
  {
  }

  lemma {:induction false} LabelsPartition(rows: seq<PostRow>)
    requires Labelled(rows)
    ensures CountLabel(rows, "Positive") + CountLabel(rows, "Negative") + CountLabel(rows, "Neutral") == |rows|
  {
    if rows != [] {
      assert Labelled(rows[1..]) by {
        forall i | 0 <= i < |rows| - 1 ensures IsLabelName(rows[1..][i].sentimentLabel) {
          assert rows[1..][i] == rows[i + 1];
        }
      }
      LabelsPartition(rows[1..]);
    }
  }

  lemma {:induction false} GroupPartition(rows: seq<PostRow>, d: string)
    requires Labelled(rows)
    ensures GroupCount(rows, d, "Positive") + GroupCount(rows, d, "Negative") + GroupCount(rows, d, "Neutral") == DistrictSize(rows, d)
  {
    if rows != [] {
      assert Labelled(rows[1..]) by {
        forall i | 0 <= i < |rows| - 1 ensures IsLabelName(rows[1..][i].sentimentLabel) {
          assert rows[1..][i] == rows[i + 1];
        }
      }
      GroupPartition(rows[1..], d);
    }
  }

  lemma {:induction false} DistrictSizeAppend(a: seq<PostRow>, b: seq<PostRow>, d: string)
    ensures DistrictSize(a + b, d) == DistrictSize(a, d) + DistrictSize(b, d)
  {
    if a == [] {
      assert a + b == b;
    } else {
      assert (a + b)[1..] == a[1..] + b;
      DistrictSizeAppend(a[1..], b, d);
    }
  }

  lemma {:induction false} DistrictSizeTagged(rows: seq<PostRow>, name: string, d: string)
    ensures DistrictSize(TagDistrict(rows, name), d) == if d == name then |rows| else 0
  {
    if rows != [] {
      assert TagDistrict(rows, name)[1..] == TagDistrict(rows[1..], name);
      DistrictSizeTagged(rows[1..], name, d);
    }
  }

  lemma TaggedLabelled(rows: seq<PostRow>, name: string)
    requires Labelled(rows)
    ensures Labelled(TagDistrict(rows, name))
  {
    forall i | 0 <= i < |rows| ensures IsLabelName(TagDistrict(rows, name)[i].sentimentLabel) {
      assert TagDistrict(rows, name)[i].sentimentLabel == rows[i].sentimentLabel;
    }
  }

  /**
   * The grouped label counts of the combined table: a district's three counts
   * add up to its number of posts. When both districts have the same name the
   * grouping merges them, and the counts add up to both tables together.
   */
  lemma GroupedCounts(d1: string, d2: string, rows1: seq<PostRow>, rows2: seq<PostRow>)
    requires Labelled(rows1) && Labelled(rows2)
    ensures var combined := TagDistrict(rows1, d1) + TagDistrict(rows2, d2);
      GroupCount(combined, d1, "Positive") + GroupCount(combined, d1, "Negative") + GroupCount(combined, d1, "Neutral")
      == |rows1| + (if d1 == d2 then |rows2| else 0)
    ensures var combined := TagDistrict(rows1, d1) + TagDistrict(rows2, d2);
      GroupCount(combined, d2, "Positive") + GroupCount(combined, d2, "Negative") + GroupCount(combined, d2, "Neutral")
      == |rows2| + (if d1 == d2 then |rows1| else 0)
  {
    var t1: seq<PostRow>, t2: seq<PostRow> := TagDistrict(rows1, d1), TagDistrict(rows2, d2);
    TaggedLabelled(rows1, d1);
    TaggedLabelled(rows2, d2);
    assert Labelled(t1 + t2) by {
      forall i | 0 <= i < |t1 + t2| ensures IsLabelName((t1 + t2)[i].sentimentLabel) {
        if i < |t1| { assert (t1 + t2)[i] == t1[i]; } else { assert (t1 + t2)[i] == t2[i - |t1|]; }
      }
    }
    GroupPartition(t1 + t2, d1);
    GroupPartition(t1 + t2, d2);
    DistrictSizeAppend(t1, t2, d1);
    DistrictSizeAppend(t1, t2, d2);
    DistrictSizeTagged(rows1, d1, d1);
    DistrictSizeTagged(rows1, d1, d2);
    DistrictSizeTagged(rows2, d2, d1);
    DistrictSizeTagged(rows2, d2, d2);
  }

  /** Fetched rows are labelled with one of the three names. */
  lemma FetchedRowsLabelled(polarity: string -> Compound, district: string, query: string, results: seq<Submission>, rows: seq<PostRow>)
    requires |rows| == |results|
    requires forall i :: 0 <= i < |results| ==> rows[i] == RowOf(polarity, district, query, results[i])
    ensures Labelled(rows)
  {
    forall i | 0 <= i < |rows| ensures IsLabelName(rows[i].sentimentLabel) {
      assert rows[i].sentimentLabel == LabelName(LabelOf(polarity(results[i].title)));
    }
  }
}
