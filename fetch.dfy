/**
 * `fetch_reddit_posts` of reddit_utils.py: connect, build the search query
 * from a district name and terms, search the `education` subreddit, and turn
 * every result into a row carrying the sentiment of its title.
 *
 * The Reddit search is a function of the client's credentials, the subreddit,
 * the query and the limit; the sentiment analyser is a function from text to
 * a compound score.
 */
module Fetch {
  import opened Wrappers
  import opened Strings
  import opened Sentiment
  import opened Credentials

  /** One search result. */
  datatype Submission = Submission(title: string, score: int, url: string, numComments: int)

  /** One row of the posts table. */
  datatype PostRow = PostRow(
    source: string, district: string, query: string, title: string,
    score: int, url: string, comments: int,
    sentimentScore: Compound, sentimentLabel: string)

  type Search = (Creds, string, string, int) -> seq<Submission>

  const Subreddit: string := "education"

  /** The search query: the district, a space, and the terms joined by " OR " in parentheses. */
  function Query(district: string, terms: seq<string>): string
  {
    district + " (" + JoinWith(" OR ", terms) + ")"
  }

  /** The row built from one search result. */
  function RowOf(polarity: string -> Compound, district: string, query: string, sub: Submission): PostRow
  {
    var a := AnalyzeSentiment(polarity, sub.title);
    PostRow("reddit", district, query, sub.title, sub.score, sub.url, sub.numComments, a.score, LabelName(a.category))
  }

  /** `fetch_reddit_posts`: a connection error propagates; otherwise one row per search result, in result order. */
  method FetchRedditPosts(snapshot: Snapshot, search: Search, polarity: string -> Compound,
                          district: string, terms: seq<string>, limit: int)
    returns (r: Result<seq<PostRow>, ConnectError>)
    ensures Resolve(snapshot).Failure? ==> r == Failure(Resolve(snapshot).error)
    ensures Resolve(snapshot).Success? ==> r.Success?
    ensures r.Success? ==>
      var results := search(Resolve(snapshot).value, Subreddit, Query(district, terms), limit);
      |r.value| == |results| &&
      forall i :: 0 <= i < |results| ==> r.value[i] == RowOf(polarity, district, Query(district, terms), results[i])
    ensures r.Success? && |search(Resolve(snapshot).value, Subreddit, Query(district, terms), limit)| <= limit ==> |r.value| <= limit
  {
    var reddit := ConnectReddit(snapshot);
    if reddit.Failure? {
      return Failure(reddit.error);
    }
    var query := district + " (" + JoinWith(" OR ", terms) + ")";
    var results := search(reddit.value, Subreddit, query, limit);
    var posts: seq<PostRow> := [];
    for i := 0 to |results|
      invariant |posts| == i
      invariant forall k :: 0 <= k < i ==> posts[k] == RowOf(polarity, district, query, results[k])
    {
      var submission := results[i];
      var a := AnalyzeSentiment(polarity, submission.title);
      posts := posts + [PostRow("reddit", district, query, submission.title, submission.score,
                                submission.url, submission.numComments, a.score, LabelName(a.category))];
    }
    return Success(posts);
  }

  /**
   * Every row names its source, district and query, copies the result's
   * fields, and carries the sentiment of its own title.
   */
  lemma RowOfSpec(polarity: string -> Compound, district: string, query: string, sub: Submission)
    ensures RowOf(polarity, district, query, sub).source == "reddit"
    ensures RowOf(polarity, district, query, sub).district == district
    ensures RowOf(polarity, district, query, sub).query == query
    ensures RowOf(polarity, district, query, sub).title == sub.title
    ensures RowOf(polarity, district, query, sub).score == sub.score
    ensures RowOf(polarity, district, query, sub).url == sub.url
    ensures RowOf(polarity, district, query, sub).comments == sub.numComments
    ensures RowOf(polarity, district, query, sub).sentimentScore == polarity(sub.title)
    ensures RowOf(polarity, district, query, sub).sentimentLabel == LabelName(LabelOf(polarity(sub.title)))
  {
  }

  // ---------------------------------------------------------------------------
  // The query string
  // ---------------------------------------------------------------------------

  /** Where the `k`-th part starts in `JoinWith(sep, parts)`. */
  function Offset(sep: string, parts: seq<string>, k: nat): nat
    requires k <= |parts|
  {
    if k == 0 then 0 else Offset(sep, parts, k - 1) + |parts[k - 1]| + |sep|
  }

  lemma {:induction false} OffsetTail(sep: string, parts: seq<string>, k: nat)
    requires 0 < k <= |parts|
    ensures Offset(sep, parts, k) == |parts[0]| + |sep| + Offset(sep, parts[1..], k - 1)
  {
    if k > 1 {
      OffsetTail(sep, parts, k - 1);
    }
  }

  /**
   * The `k`-th part sits in the joined text at its offset; `sep` follows it
   * when another part follows, and the text ends with it when it is the last.
   */
  predicate Placed(sep: string, parts: seq<string>, k: nat)
    requires k < |parts|
  {
    var j, o := JoinWith(sep, parts), Offset(sep, parts, k);
    && o + |parts[k]| + (if k + 1 < |parts| then |sep| else 0) <= |j|
    && j[o..o + |parts[k]|] == parts[k]
    && (k + 1 < |parts| ==> j[o + |parts[k]|..Offset(sep, parts, k + 1)] == sep)
    && (k + 1 == |parts| ==> o + |parts[k]| == |j|)
  }

  /** Every part of a joined text is placed at its offset. */
  lemma {:induction false} JoinPlacesParts(sep: string, parts: seq<string>, k: nat)
    requires k < |parts|
    ensures Placed(sep, parts, k)
  {
    if |parts| == 1 {
    } else if k == 0 {
      JoinCons(sep, parts);
    } else {
      JoinPlacesParts(sep, parts[1..], k - 1);
      PlacedInRest(sep, parts, k);
    }
  }

  /** A part placed in the join of the later parts is placed in the whole join, one part and one separator further. */
  lemma PlacedInRest(sep: string, parts: seq<string>, k: nat)
    requires 0 < k < |parts| && Placed(sep, parts[1..], k - 1)
    ensures Placed(sep, parts, k)
  {
    var j, rest := JoinWith(sep, parts), JoinWith(sep, parts[1..]);
    var d, pk := |parts[0]| + |sep|, parts[k];
    var o := Offset(sep, parts[1..], k - 1);
    JoinTail(sep, parts);
    OffsetTail(sep, parts, k);
    var big := Offset(sep, parts, k);
    assert big == d + o;
    assert parts[1..][k - 1] == pk;
    SliceShift(j, d, rest, o, o + |pk|);
    if k + 1 < |parts| {
      var o2 := Offset(sep, parts[1..], k);
      OffsetTail(sep, parts, k + 1);
      SliceShift(j, d, rest, o + |pk|, o2);
    }
  }

  /** After the first part and the separator comes the join of the later parts. */
  lemma JoinTail(sep: string, parts: seq<string>)
    requires |parts| > 1
    ensures |JoinWith(sep, parts)| == |parts[0]| + |sep| + |JoinWith(sep, parts[1..])|
    ensures JoinWith(sep, parts)[|parts[0]| + |sep|..] == JoinWith(sep, parts[1..])
  {
    var j := JoinWith(sep, parts);
    assert j == (parts[0] + sep) + JoinWith(sep, parts[1..]);
  }

  /** Joining two or more parts: the first part, the separator, then the rest joined. */
  lemma JoinCons(sep: string, parts: seq<string>)
    requires |parts| > 1
    ensures |JoinWith(sep, parts)| == |parts[0]| + |sep| + |JoinWith(sep, parts[1..])|
    ensures JoinWith(sep, parts)[..|parts[0]|] == parts[0]
    ensures JoinWith(sep, parts)[|parts[0]|..|parts[0]| + |sep|] == sep
    ensures JoinWith(sep, parts)[|parts[0]| + |sep|..] == JoinWith(sep, parts[1..])
  {
    var j := JoinWith(sep, parts);
    assert j == parts[0] + sep + JoinWith(sep, parts[1..]);
  }

  lemma SliceShift(j: string, d: nat, rest: string, a: nat, b: nat)
    requires d <= |j| && j[d..] == rest && a <= b <= |rest|
    ensures j[d + a..d + b] == rest[a..b]
  {
    forall i | 0 <= i < b - a ensures j[d + a..d + b][i] == rest[a..b][i] {
      assert j[d + a + i] == rest[a + i];
    }
  }

  /**
   * The query is the district, then " (", then the terms in the order given,
   * consecutive terms separated by " OR ", then ")".
   */
  lemma QueryLayout(district: string, terms: seq<string>, k: nat)
    requires k < |terms|
    ensures |Query(district, terms)| == |district| + 3 + |JoinWith(" OR ", terms)|
    ensures |district| + 2 + Offset(" OR ", terms, k) + |terms[k]| + (if k + 1 < |terms| then 4 else 0) < |Query(district, terms)|
    ensures Query(district, terms)[..|district| + 2] == district + " ("
    ensures Query(district, terms)[|Query(district, terms)| - 1] == ')'
    ensures var o := |district| + 2 + Offset(" OR ", terms, k);
      Query(district, terms)[o..o + |terms[k]|] == terms[k] &&
      (k + 1 < |terms| ==> Query(district, terms)[o + |terms[k]|..o + |terms[k]| + 4] == " OR ") &&
      (k + 1 == |terms| ==> o + |terms[k]| == |Query(district, terms)| - 1)
  {
    JoinPlacesParts(" OR ", terms, k);
    var pre, j := district + " (", JoinWith(" OR ", terms);
    var q := Query(district, terms);
    assert q == pre + j + ")";
    FrameEnds(pre, j, ")");
    var o := Offset(" OR ", terms, k);
    FrameSlice(pre, j, ")", o, o + |terms[k]|);
    if k + 1 < |terms| {
      var e := o + |terms[k]|;
      FrameSlice(pre, j, ")", e, e + 4);
    }
  }

  /** The frame around a middle part. */
  lemma FrameEnds(pre: string, j: string, post: string)
    requires |post| == 1
    ensures |pre + j + post| == |pre| + |j| + 1
    ensures (pre + j + post)[..|pre|] == pre
    ensures (pre + j + post)[|pre + j + post| - 1] == post[0]
  {
  }

  /** A slice of the middle part of `pre + j + post`. */
  lemma FrameSlice(pre: string, j: string, post: string, a: nat, b: nat)
    requires a <= b <= |j|
    ensures (pre + j + post)[|pre| + a..|pre| + b] == j[a..b]
  {
    var q := pre + j + post;
    forall i | 0 <= i < b - a ensures q[|pre| + a..|pre| + b][i] == j[a..b][i] {
      assert q[|pre| + a + i] == j[a + i];
    }
  }

  /** With no terms the query still carries the empty parentheses. */
  lemma EmptyTermsQuery(district: string)
    ensures Query(district, []) == district + " ()"
  {
  }

  lemma QueryExample(district: string, terms: seq<string>)
    requires district == "Palo Alto" && terms == ["schools", "homework"]
    ensures Query(district, terms) == "Palo Alto (schools OR homework)"
  {
    assert terms[1..] == ["homework"];
    assert JoinWith(" OR ", terms) == "schools OR homework";
  }
}
