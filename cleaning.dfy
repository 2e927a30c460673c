/**
 * The comment-cleaning pipeline of notebooks/text_processing.py: `clean_text`,
 * `clean_corpus` and `clean_dataframe_column`.
 *
 * `clean_text` is a fixed chain of rewrites, each modelled by its own
 * function: lower-casing, deletion of `http\S+|www\S+`, deletion of
 * `@\w+|#\w+`, deletion of the 32 characters of `string.punctuation`,
 * whitespace collapsing (`" ".join(text.split())`) and stopword filtering.
 */
module Cleaning {
  import opened Strings

  /** A cell of a comment column: a Python `str`, or any other value
      (None, NaN, a number), which `clean_text` maps to "". */
  datatype Text = Str(s: string) | NotStr

  predicate IsUpper(c: char) { 'A' <= c <= 'Z' }

  function LowerChar(c: char): char
  {
    if IsUpper(c) then (c as int + 32) as char else c
  }

  /** `str.lower()` on ASCII letters. */
  function Lower(s: string): (r: string)
    ensures |r| == |s|
    ensures forall i :: 0 <= i < |r| ==> !IsUpper(r[i])
    ensures forall i :: 0 <= i < |r| ==> (r[i] == s[i] || (IsUpper(s[i]) && r[i] as int == s[i] as int + 32))
  {
    seq(|s|, i requires 0 <= i < |s| => LowerChar(s[i]))
  }

  /** Python's `\w` on ASCII. */
  predicate IsWordChar(c: char) {
    ('a' <= c <= 'z') || ('A' <= c <= 'Z') || ('0' <= c <= '9') || c == '_'
  }

  /** `string.punctuation`. */
  const Punctuation: string := "!\"#$%&'()*+,-./:;<=>?@[\\]^_`{|}~"

  /** Membership in `string.punctuation`, by ASCII ranges. */
  predicate IsPunct(c: char) {
    ('!' <= c <= '/') || (':' <= c <= '@') || ('[' <= c <= '`') || ('{' <= c <= '~')
  }

  /** Length of the longest prefix of `s` made of `\w` characters. */
  function WordRun(s: string): (k: nat)
    ensures k <= |s|
    ensures forall i :: 0 <= i < k ==> IsWordChar(s[i])
    ensures k == |s| || !IsWordChar(s[k])
  {
    if s == [] || !IsWordChar(s[0]) then 0 else 1 + WordRun(s[1..])
  }

  /** The pattern `http\S+|www\S+` matches at the start of `s`. Since `\S+`
      is greedy, a match runs to the end of the whitespace-free prefix. */
  predicate UrlAt(s: string) {
    (|s| > 4 && s[..4] == "http" && !IsSpace(s[4])) || (|s| > 3 && s[..3] == "www" && !IsSpace(s[3]))
  }

  /** `re.sub(r"http\S+|www\S+", "", s)`: scan left to right, delete each
      match and resume after it. */
  function StripUrls(s: string): string
    decreases |s|
  {
    if s == [] then ""
    else if UrlAt(s) then
      assert s[0] == s[..3][0];
      StripUrls(s[RunLen(s)..])
    else [s[0]] + StripUrls(s[1..])
  }

  /** The pattern `@\w+|#\w+` matches at the start of `s`. */
  predicate TagAt(s: string) {
    |s| > 1 && (s[0] == '@' || s[0] == '#') && IsWordChar(s[1])
  }

  /** `re.sub(r"@\w+|#\w+", "", s)`. */
  function StripTags(s: string): string
    decreases |s|
  {
    if s == [] then ""
    else if TagAt(s) then StripTags(s[1 + WordRun(s[1..])..])
    else [s[0]] + StripTags(s[1..])
  }

  /** `s.translate(str.maketrans("", "", string.punctuation))`. */
  function RemovePunctuation(s: string): (r: string)
    ensures forall i :: 0 <= i < |r| ==> !IsPunct(r[i])
    ensures IsSubseq(r, s)
  {
    if s == [] then ""
    else if IsPunct(s[0]) then
      var r := RemovePunctuation(s[1..]);
      SubseqDrop(r, s, 1);
      r
    else
      var r := RemovePunctuation(s[1..]);
      assert ([s[0]] + r)[1..] == r;
      [s[0]] + r
  }

  /** `" ".join(s.split())`. */
  function CollapseWhitespace(s: string): string
  {
    JoinWith(" ", Split(s))
  }

  /** `[w for w in words if w not in stop_words]`. */
  function DropStopwords(words: seq<string>, stopwords: set<string>): (r: seq<string>)
    ensures IsSubseq(r, words)
    ensures forall w :: w in r <==> w in words && w !in stopwords
    ensures forall w :: multiset(r)[w] == if w in stopwords then 0 else multiset(words)[w]
  {
    if words == [] then []
    else if words[0] in stopwords then
      var r := DropStopwords(words[1..], stopwords);
      SubseqDrop(r, words, 1);
      assert words == [words[0]] + words[1..];
      assert multiset(words) == multiset{words[0]} + multiset(words[1..]);
      r
    else
      var r := DropStopwords(words[1..], stopwords);
      assert ([words[0]] + r)[1..] == r;
      assert words == [words[0]] + words[1..];
      assert multiset(words) == multiset{words[0]} + multiset(words[1..]);
      assert multiset([words[0]] + r) == multiset{words[0]} + multiset(r);
      [words[0]] + r
  }

  /** `" ".join([w for w in s.split() if w not in stop_words])`. */
  function RemoveStopwords(s: string, stopwords: set<string>): string
  {
    JoinWith(" ", DropStopwords(Split(s), stopwords))
  }

  /** The text after the steps that delete characters (lines 43-53) and
      before the steps that work on tokens. */
  function Stripped(s: string, lowercase: bool): string
  {
    RemovePunctuation(StripTags(StripUrls(if lowercase then Lower(s) else s)))
  }

  /** `clean_text(text, remove_stopwords, lowercase)` with the English
      stopword list given as `stopwords`. */
  function CleanText(text: Text, stopwords: set<string>, removeStopwords: bool, lowercase: bool): string
  {
    match text
    case NotStr => ""
    case Str(s) =>
      var collapsed := CollapseWhitespace(Stripped(s, lowercase));
      if removeStopwords then RemoveStopwords(collapsed, stopwords) else collapsed
  }

  /** `clean_corpus`: `clean_text` applied to every comment. */
  function CleanCorpus(comments: seq<Text>, stopwords: set<string>, removeStopwords: bool, lowercase: bool): seq<string>
  {
    seq(|comments|, i requires 0 <= i < |comments| => CleanText(comments[i], stopwords, removeStopwords, lowercase))
  }

  /** The ranges of `IsPunct` are exactly the 32 characters of `string.punctuation`. */
  lemma PunctuationRanges(c: char)
    ensures IsPunct(c) <==> c in Punctuation
  {
  }

  /** What every output of `clean_text` looks like. */
  ghost predicate CleanForm(r: string) {
    SingleSpaced(r) && forall i :: 0 <= i < |r| ==> !IsPunct(r[i])
  }

  /** `clean_dataframe_column`: `df[new_column] = df[column].apply(clean_corpus)`
      on a copy of the frame. `column` is the comment column, one list of
      comments per post; the result is the new column. The input column is a
      value and so is never changed. */
  method CleanDataFrameColumn(column: seq<seq<Text>>, stopwords: set<string>, removeStopwords: bool, lowercase: bool)
    returns (cleaned: seq<seq<string>>)
    ensures |cleaned| == |column|
    ensures forall i :: 0 <= i < |column| ==> cleaned[i] == CleanCorpus(column[i], stopwords, removeStopwords, lowercase)
  {
    cleaned := [];
    for i := 0 to |column|
      invariant |cleaned| == i
      invariant forall j :: 0 <= j < i ==> cleaned[j] == CleanCorpus(column[j], stopwords, removeStopwords, lowercase)
    {
      cleaned := cleaned + [CleanCorpus(column[i], stopwords, removeStopwords, lowercase)];
    }
  }

  // ---------------------------------------------------------------------------
  // the deleting steps only delete

  lemma {:induction false} StripUrlsSubseq(s: string)
    ensures IsSubseq(StripUrls(s), s)
    decreases |s|
  {
    if s != [] {
      if UrlAt(s) {
        assert s[0] == s[..3][0];
        var k := RunLen(s);
        StripUrlsSubseq(s[k..]);
        SubseqDrop(StripUrls(s), s, k);
      } else {
        StripUrlsSubseq(s[1..]);
        SubseqPrefix([s[0]], StripUrls(s[1..]), s[1..]);
        assert [s[0]] + s[1..] == s;
      }
    }
  }

  lemma {:induction false} StripTagsSubseq(s: string)
    ensures IsSubseq(StripTags(s), s)
    decreases |s|
  {
    if s != [] {
      if TagAt(s) {
        var k := 1 + WordRun(s[1..]);
        StripTagsSubseq(s[k..]);
        SubseqDrop(StripTags(s), s, k);
      } else {
        StripTagsSubseq(s[1..]);
        SubseqPrefix([s[0]], StripTags(s[1..]), s[1..]);
        assert [s[0]] + s[1..] == s;
      }
    }
  }

  /** The characters left after lines 43-53 come from the (lower-cased) input,
      in order, and none of them is punctuation. */
  lemma StrippedSubseq(s: string, lowercase: bool)
    ensures IsSubseq(Stripped(s, lowercase), if lowercase then Lower(s) else s)
  {
    var a := if lowercase then Lower(s) else s;
    var b := StripUrls(a);
    var c := StripTags(b);
    StripUrlsSubseq(a);
    StripTagsSubseq(b);
    SubseqTrans(c, b, a);
    SubseqTrans(RemovePunctuation(c), c, a);
  }

  /** The non-whitespace characters of the result are those of the stripped
      text, minus the dropped stopwords; its tokens are exactly the kept ones. */
  lemma TokenStage(d: string, stopwords: set<string>, removeStopwords: bool)
    ensures var collapsed := CollapseWhitespace(d);
            var r := if removeStopwords then RemoveStopwords(collapsed, stopwords) else collapsed;
            && SingleSpaced(r)
            && IsSubseq(NonSpace(r), NonSpace(d))
            && Split(r) == (if removeStopwords then DropStopwords(Split(d), stopwords) else Split(d))
  {
    var ws := Split(d);
    var e := JoinWith(" ", ws);
    NonSpaceJoin(ws);
    NonSpaceSplit(d);
    SplitJoin(ws);
    if removeStopwords {
      var fs := DropStopwords(ws, stopwords);
      assert forall k :: 0 <= k < |fs| ==> IsWord(fs[k]) by {
        forall k | 0 <= k < |fs| ensures IsWord(fs[k]) {
          assert fs[k] in ws;
        }
      }
      NonSpaceJoin(fs);
      ConcatMono(fs, ws);
      SplitJoin(fs);
      JoinSingleSpaced(fs);
    } else {
      SubseqRefl(NonSpace(d));
      JoinSingleSpaced(ws);
    }
  }

  /** A single-spaced text whose non-whitespace characters all occur in a
      text without punctuation (or without upper case) has none either. */
  lemma CharsFrom(r: string, d: string)
    requires SingleSpaced(r)
    requires forall i :: 0 <= i < |r| && !IsSpace(r[i]) ==> r[i] in d
    ensures (forall i :: 0 <= i < |d| ==> !IsPunct(d[i])) ==> forall i :: 0 <= i < |r| ==> !IsPunct(r[i])
    ensures (forall i :: 0 <= i < |d| ==> !IsUpper(d[i])) ==> forall i :: 0 <= i < |r| ==> !IsUpper(r[i])
  {
  }

  /** The guarantees of `clean_text` on a string input (lines 43-62). */
  lemma CleanTextSpec(s: string, stopwords: set<string>, removeStopwords: bool, lowercase: bool)
    ensures var r := CleanText(Str(s), stopwords, removeStopwords, lowercase);
            && CleanForm(r)
            && (lowercase ==> forall i :: 0 <= i < |r| ==> !IsUpper(r[i]))
            && (removeStopwords ==> forall w :: w in Split(r) ==> w !in stopwords)
            && IsSubseq(NonSpace(r), if lowercase then Lower(s) else s)
            && Split(r) == (if removeStopwords then DropStopwords(Split(Stripped(s, lowercase)), stopwords)
                            else Split(Stripped(s, lowercase)))
  {
    var a := if lowercase then Lower(s) else s;
    var d := Stripped(s, lowercase);
    var collapsed := CollapseWhitespace(d);
    var r := if removeStopwords then RemoveStopwords(collapsed, stopwords) else collapsed;
    assert r == CleanText(Str(s), stopwords, removeStopwords, lowercase);
    TokenStage(d, stopwords, removeStopwords);
    StrippedSubseq(s, lowercase);
    NonSpaceSubseqSelf(d);
    SubseqTrans(NonSpace(r), NonSpace(d), d);
    SubseqTrans(NonSpace(r), d, a);
    NonSpaceCharsFrom(r, d);
    NonSpaceCharsFrom(r, a);
    CharsFrom(r, d);
    CharsFrom(r, a);
  }

  /** A value that is not a string cleans to "" (lines 39-40). */
  lemma CleanTextNotStr(stopwords: set<string>, removeStopwords: bool, lowercase: bool)
    ensures CleanText(NotStr, stopwords, removeStopwords, lowercase) == ""
    ensures CleanForm(CleanText(NotStr, stopwords, removeStopwords, lowercase))
  {
  }

  /** `clean_corpus` keeps one cleaned comment per input comment, in order, and
      every one of them is in cleaned form (line 79). */
  lemma CleanCorpusSpec(comments: seq<Text>, stopwords: set<string>, removeStopwords: bool, lowercase: bool)
    ensures var r := CleanCorpus(comments, stopwords, removeStopwords, lowercase);
            && |r| == |comments|
            && (forall i :: 0 <= i < |r| ==> r[i] == CleanText(comments[i], stopwords, removeStopwords, lowercase))
            && (forall i :: 0 <= i < |r| ==> CleanForm(r[i]))
  {
    forall i | 0 <= i < |comments|
      ensures CleanForm(CleanText(comments[i], stopwords, removeStopwords, lowercase))
    {
      if comments[i].Str? {
        CleanTextSpec(comments[i].s, stopwords, removeStopwords, lowercase);
      }
    }
  }

  /** A URL match never reaches across a space. */
  lemma {:induction false} UrlAtAroundSpace(x: string, y: string)
    ensures UrlAt(x + " " + y) == UrlAt(x)
  {
    var s := x + " " + y;
    if |x| > 4 { assert s[..4] == x[..4] && s[4] == x[4]; }
    if |x| > 3 { assert s[..3] == x[..3] && s[3] == x[3]; }
    if |x| < 4 && |s| > 4 { assert s[..4][|x|] == s[|x|] == ' '; }
    if |x| == 4 { assert s[4] == ' '; assert s[..4] == x; }
    if |x| < 3 && |s| > 3 { assert s[..3][|x|] == s[|x|] == ' '; }
    if |x| == 3 { assert s[3] == ' '; assert s[..3] == x; }
  }

  /** URL deletion works word by word: a space is a boundary for it. */
  lemma {:induction false} StripUrlsAroundSpace(x: string, y: string)
    ensures StripUrls(x + " " + y) == StripUrls(x) + " " + StripUrls(y)
    decreases |x|
  {
    if x == [] {
      UrlsBlankFirst(y);
    } else if UrlAt(x) {
      var k := RunLen(x);
      assert x[0] == x[..3][0];
      StripUrlsAroundSpace(x[k..], y);
      UrlsUrlFirst(x, y, k);
    } else {
      StripUrlsAroundSpace(x[1..], y);
      UrlsPlainFirst(x, y);
    }
  }

  lemma UrlsBlankFirst(y: string)
    ensures StripUrls([] + " " + y) == StripUrls([]) + " " + StripUrls(y)
  {
    var s := [] + " " + y;
    assert !UrlAt(s) by { assert s[0] == ' '; if |s| > 3 { assert s[..3][0] == ' '; } }
    assert s[0] == ' ' && s[1..] == y;
  }

  lemma UrlsUrlFirst(x: string, y: string, k: nat)
    requires UrlAt(x) && k == RunLen(x)
    requires StripUrls(x[k..] + " " + y) == StripUrls(x[k..]) + " " + StripUrls(y)
    ensures StripUrls(x + " " + y) == StripUrls(x) + " " + StripUrls(y)
  {
    var c := " " + y;
    UrlAtAroundSpace(x, y);
    ConcatAssoc(x, " ", y);
    ConcatAssoc(x[k..], " ", y);
    AppendSlices(x, c, k);
    RunLenUnique(x + c, k);
    assert StripUrls(x + c) == StripUrls((x + c)[k..]);
  }

  lemma UrlsPlainFirst(x: string, y: string)
    requires x != [] && !UrlAt(x)
    requires StripUrls(x[1..] + " " + y) == StripUrls(x[1..]) + " " + StripUrls(y)
    ensures StripUrls(x + " " + y) == StripUrls(x) + " " + StripUrls(y)
  {
    var s := x + " " + y;
    UrlAtAroundSpace(x, y);
    assert s[0] == x[0];
    assert s[1..] == x[1..] + " " + y;
    var a, b := StripUrls(x[1..]), StripUrls(y);
    assert StripUrls(s) == [x[0]] + ((a + " ") + b);
    ConcatAssoc([x[0]], a + " ", b);
    ConcatAssoc([x[0]], a, " ");
  }

  /** Text with no URL start anywhere is left unchanged. */
  lemma {:induction false} NoUrlIdentity(s: string)
    requires forall i :: 0 <= i < |s| ==> !UrlAt(s[i..])
    ensures StripUrls(s) == s
  {
    if s != [] {
      assert s[0..] == s;
      forall i | 0 <= i < |s| - 1 ensures !UrlAt(s[1..][i..]) {
        assert s[1..][i..] == s[i + 1..];
      }
      NoUrlIdentity(s[1..]);
    }
  }

  /** Text with no '@' or '#' is left unchanged by tag deletion. */
  lemma {:induction false} NoTagIdentity(s: string)
    requires forall i :: 0 <= i < |s| ==> s[i] != '@' && s[i] != '#'
    ensures StripTags(s) == s
  {
    if s != [] {
      NoTagIdentity(s[1..]);
    }
  }

  /** Punctuation removal is character by character, so it distributes over concatenation. */
  lemma {:induction false} RemovePunctuationAppend(a: string, b: string)
    ensures RemovePunctuation(a + b) == RemovePunctuation(a) + RemovePunctuation(b)
  {
    if a == [] {
      assert a + b == b;
    } else {
      assert (a + b)[0] == a[0];
      assert (a + b)[1..] == a[1..] + b;
      RemovePunctuationAppend(a[1..], b);
    }
  }

  /** Text without punctuation is left unchanged by punctuation removal. */
  lemma {:induction false} NoPunctIdentity(s: string)
    requires forall i :: 0 <= i < |s| ==> !IsPunct(s[i])
    ensures RemovePunctuation(s) == s
  {
    if s != [] {
      NoPunctIdentity(s[1..]);
    }
  }
}
