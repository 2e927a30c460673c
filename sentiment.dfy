/**
 * The sentiment rule of reddit_utils.py: a compound polarity score in
 * [-1, 1], given by an analyser this model treats as an opaque function, is
 * labelled Positive, Negative or Neutral by two fixed thresholds.
 */
module Sentiment {

  /** A VADER compound score. */
  type Compound = r: real | -1.0 <= r <= 1.0 witness 0.0

  datatype Label = Positive | Negative | Neutral

  /** The three-way threshold rule: 0.05 itself is Positive, -0.05 itself is Negative. */
  function LabelOf(score: real): (l: Label)
    ensures l == Positive <==> score >= 0.05
    ensures l == Negative <==> score <= -0.05
    ensures l == Neutral <==> -0.05 < score < 0.05
  {
    if score >= 0.05 then Positive
    else if score <= -0.05 then Negative
    else Neutral
  }

  /** The label as the text stored in a row. */
  function LabelName(l: Label): string
  {
    match l
    case Positive => "Positive"
    case Negative => "Negative"
    case Neutral => "Neutral"
  }

  /** Labels in the order of the scores they cover. */
  function Rank(l: Label): nat
  {
    match l
    case Negative => 0
    case Neutral => 1
    case Positive => 2
  }

  /** A higher score never gets a lower label. */
  lemma LabelMonotone(a: real, b: real)
    requires a <= b
    ensures Rank(LabelOf(a)) <= Rank(LabelOf(b))
  {
  }

  /** Distinct labels have distinct names, so the name determines the label. */
  lemma LabelNameInjective(l: Label, m: Label)
    ensures LabelName(l) == LabelName(m) <==> l == m
  {
    assert LabelName(Positive)[0] == 'P' && LabelName(Negative)[1] == 'e' && LabelName(Neutral)[1] == 'e';
    assert LabelName(Negative)[2] == 'g' && LabelName(Neutral)[2] == 'u';
  }

  /** The result of `analyze_sentiment`: the score and its label. */
  datatype Analysis = Analysis(score: Compound, category: Label)

  /** `analyze_sentiment`: the analyser's compound score of `text`, returned unchanged, and its label. */
  function AnalyzeSentiment(polarity: string -> Compound, text: string): (a: Analysis)
    ensures a.score == polarity(text)
    ensures a.category == LabelOf(a.score)
  {
    var score := polarity(text);
    Analysis(score, LabelOf(score))
  }

  /** The label depends on nothing but the score: two texts with the same score get the same analysis. */
  lemma AnalysisByScore(p: string -> Compound, s: string, q: string -> Compound, t: string)
    requires p(s) == q(t)
    ensures AnalyzeSentiment(p, s) == AnalyzeSentiment(q, t)
  {
  }

  lemma LabelExamples()
    ensures LabelOf(0.05) == Positive && LabelOf(-0.05) == Negative && LabelOf(0.0) == Neutral
  {
  }
}
