/**
 * The exploratory statistics of notebooks/text_processing.py: word and bigram
 * frequencies over a list of comments, comment lengths, and the per-post
 * statistics columns.
 */
module CorpusStats {
  import opened Strings
  import opened Counting

  // ---------------------------------------------------------------------------
  // get_word_counts
  // ---------------------------------------------------------------------------

  /** `get_word_counts`: the comments are joined with one space, split, counted, and the `topN` most common kept. */
  function WordCounts(comments: seq<string>, topN: int): seq<Entry>
  {
    MostCommon(Split(JoinWith(" ", comments)), topN)
  }

  /**
   * Joining never glues two comments' words together, so the words counted are
   * exactly the comments' own tokens, and the result is `most_common` of them.
   */
  lemma WordCountsSpec(comments: seq<string>, topN: int)
    ensures WordCounts(comments, topN) == MostCommon(Tokens(comments), topN)
    ensures |WordCounts(comments, topN)| == if topN <= 0 then 0 else Min(topN, DistinctCount(Tokens(comments)))
    ensures Distinct(WordCounts(comments, topN))
    ensures CountsOf(WordCounts(comments, topN), Tokens(comments))
    ensures RankedBy(WordCounts(comments, topN), Tokens(comments))
  {
    SplitJoinTokens(comments);
    MostCommonSpec(Tokens(comments), topN);
  }

  // ---------------------------------------------------------------------------
  // get_bigram_counts
  // ---------------------------------------------------------------------------

  function Max0(n: int): nat
  {
    if n <= 0 then 0 else n
  }

  /** The bigrams of one comment's words: each word joined to the next by a space. */
  function Bigrams(ws: seq<string>): (bs: seq<string>)
    ensures |bs| == Max0(|ws| - 1)
    ensures forall i :: 0 <= i < |bs| ==> bs[i] == ws[i] + " " + ws[i + 1]
  {
    seq(Max0(|ws| - 1), i requires 0 <= i < Max0(|ws| - 1) => ws[i] + " " + ws[i + 1])
  }

  /** The bigram list after the comments have been processed in order. */
  function AllBigrams(comments: seq<string>): seq<string>
  {
    if comments == [] then []
    else AllBigrams(comments[..|comments| - 1]) + Bigrams(Split(comments[|comments| - 1]))
  }

  /** `get_bigram_counts`: the bigram list is grown comment by comment, then counted. */
  method BigramCounts(comments: seq<string>, topN: int) returns (r: seq<Entry>)
    ensures r == MostCommon(AllBigrams(comments), topN)
  {
    var bigramList: seq<string> := [];
    for k := 0 to |comments|
      invariant bigramList == AllBigrams(comments[..k])
    {
      var words := Split(comments[k]);
      var bigrams := Bigrams(words);
      assert comments[..k + 1][..k] == comments[..k];
      bigramList := bigramList + bigrams;
    }
    assert comments[..|comments|] == comments;
    r := MostCommon(bigramList, topN);
  }

  /** `b` is two adjacent words of one comment. */
  ghost predicate WithinOneComment(b: string, comments: seq<string>)
  {
    exists j, i :: 0 <= j < |comments| && 0 <= i < |Split(comments[j])| - 1 &&
      b == Split(comments[j])[i] + " " + Split(comments[j])[i + 1]
  }

  /** Every bigram pairs two adjacent words of a single comment: none straddles two comments. */
  lemma {:induction false} BigramsWithinComments(comments: seq<string>)
    ensures forall b :: b in AllBigrams(comments) ==> WithinOneComment(b, comments)
  {
    if comments != [] {
      var n := |comments| - 1;
      var init := comments[..n];
      BigramsWithinComments(init);
      forall b | b in AllBigrams(comments) ensures WithinOneComment(b, comments) {
        if b in AllBigrams(init) {
          var j, i :| 0 <= j < |init| && 0 <= i < |Split(init[j])| - 1 &&
            b == Split(init[j])[i] + " " + Split(init[j])[i + 1];
          assert init[j] == comments[j];
        } else {
          var bs := Bigrams(Split(comments[n]));
          assert b in bs;
          var i :| 0 <= i < |bs| && bs[i] == b;
        }
      }
    }
  }

  /** The number of bigrams each comment contributes, summed. */
  function PairCount(comments: seq<string>): nat
  {
    if comments == [] then 0
    else PairCount(comments[..|comments| - 1]) + Max0(|Split(comments[|comments| - 1])| - 1)
  }

  /** Before truncation, the bigram counts add up to the sum over comments of `max(#words - 1, 0)`. */
  lemma {:induction false} BigramTotal(comments: seq<string>)
    ensures Total(Tally(AllBigrams(comments))) == PairCount(comments)
  {
    BigramListLength(comments);
    TallySpec(AllBigrams(comments));
  }

  lemma {:induction false} BigramListLength(comments: seq<string>)
    ensures |AllBigrams(comments)| == PairCount(comments)
  {
    if comments != [] {
      BigramListLength(comments[..|comments| - 1]);
    }
  }

  // ---------------------------------------------------------------------------
  // get_comment_lengths and get_post_statistics
  // ---------------------------------------------------------------------------

  /** `get_comment_lengths`: the number of words of each comment. */
  function CommentLengths(comments: seq<string>): (ls: seq<nat>)
    ensures |ls| == |comments|
    ensures forall i :: 0 <= i < |comments| ==> ls[i] == |Split(comments[i])|
  {
    seq(|comments|, i requires 0 <= i < |comments| => |Split(comments[i])|)
  }

  function Sum(xs: seq<nat>): nat
  {
    if xs == [] then 0 else xs[0] + Sum(xs[1..])
  }

  /** The lengths add up to the number of tokens of all comments. */
  lemma {:induction false} LengthsSum(comments: seq<string>)
    ensures Sum(CommentLengths(comments)) == |Tokens(comments)|
  {
    if comments != [] {
      assert CommentLengths(comments)[1..] == CommentLengths(comments[1..]);
      LengthsSum(comments[1..]);
    }
  }

  /** The three statistics columns of one post. */
  datatype PostStats = PostStats(avgCommentLength: real, totalTokens: nat, uniqueWords: nat)

  /** `avg_comment_length`: the mean number of words per comment, 0 for a post without comments. */
  function AverageLength(comments: seq<string>): real
  {
    if comments == [] then 0.0 else (Sum(CommentLengths(comments)) as real) / (|comments| as real)
  }

  /** `unique_words`: the number of distinct words of the joined comments. */
  function UniqueWords(comments: seq<string>): nat
  {
    |set w | w in Split(JoinWith(" ", comments))|
  }

  /** A post's statistics: mean length, total tokens, distinct tokens. */
  function Stats(comments: seq<string>): PostStats
  {
    PostStats(AverageLength(comments), Sum(CommentLengths(comments)), UniqueWords(comments))
  }

  lemma {:induction false} SetCard(xs: seq<string>)
    ensures |set w | w in xs| <= |xs|
  {
    if xs != [] {
      SetCard(xs[1..]);
      assert (set w | w in xs) == {xs[0]} + (set w | w in xs[1..]);
    }
  }

  /**
   * `total_tokens` counts every token of the post's comments, `unique_words`
   * the distinct ones, which are never more; the average is 0 for a post
   * without comments and otherwise the total over the number of comments.
   */
  lemma StatsSpec(comments: seq<string>)
    ensures Stats(comments).totalTokens == |Tokens(comments)|
    ensures Stats(comments).uniqueWords == DistinctCount(Tokens(comments))
    ensures Stats(comments).uniqueWords <= Stats(comments).totalTokens
    ensures comments == [] ==> Stats(comments).avgCommentLength == 0.0
    ensures comments != [] ==>
      Stats(comments).avgCommentLength * (|comments| as real) == Stats(comments).totalTokens as real
  {
    StatsTotal(comments);
    StatsUnique(comments);
    StatsAverage(comments);
  }

  lemma StatsTotal(comments: seq<string>)
    ensures Stats(comments).totalTokens == |Tokens(comments)|
  {
    LengthsSum(comments);
  }

  lemma StatsUnique(comments: seq<string>)
    ensures Stats(comments).uniqueWords == DistinctCount(Tokens(comments))
    ensures Stats(comments).uniqueWords <= |Tokens(comments)|
  {
    SplitJoinTokens(comments);
    SetCard(Tokens(comments));
  }

  lemma StatsAverage(comments: seq<string>)
    ensures comments == [] ==> Stats(comments).avgCommentLength == 0.0
    ensures comments != [] ==>
      Stats(comments).avgCommentLength * (|comments| as real) == Stats(comments).totalTokens as real
  {
    var t, n := Sum(CommentLengths(comments)) as real, |comments| as real;
    var avg := AverageLength(comments);
    assert Stats(comments).avgCommentLength == avg && Stats(comments).totalTokens as real == t;
    if comments != [] {
      assert avg == t / n;
      MeanTimesCount(t, n);
    }
  }

  lemma MeanTimesCount(t: real, n: real)
    requires n > 0.0
    ensures (t / n) * n == t
  {
  }

  /** `get_post_statistics`: the three columns, computed for every post of the column, in order. */
  method PostStatistics(column: seq<seq<string>>) returns (stats: seq<PostStats>)
    ensures |stats| == |column|
    ensures forall i :: 0 <= i < |column| ==> stats[i] == Stats(column[i])
  {
    stats := [];
    for i := 0 to |column|
      invariant |stats| == i
      invariant forall k :: 0 <= k < i ==> stats[k] == Stats(column[k])
    {
      stats := stats + [Stats(column[i])];
    }
  }
}
