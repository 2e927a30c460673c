/**
 * Worked examples of the text-cleaning pipeline of notebooks/text_processing.py,
 * proved: one cleaning example, and a short input on which
 * cleaning twice differs from cleaning once.
 */
module CleaningExamples {
  import opened Strings
  import opened Cleaning

  /** For a text whose only `h` or `w` cannot start a match. */
  lemma NoUrlHere(s: string)
    requires forall i :: 0 <= i < |s| ==> (s[i] == 'h' ==> i + 4 >= |s|) && (s[i] == 'w' ==> i + 3 >= |s|)
    ensures StripUrls(s) == s
  {
    forall i | 0 <= i < |s| ensures !UrlAt(s[i..]) {
      var t := s[i..];
      assert t[0] == s[i];
      if |t| > 3 { assert t[..3][0] == t[0]; }
      if |t| > 4 { assert t[..4][0] == t[0]; }
    }
    NoUrlIdentity(s);
  }

  lemma ExampleSlices(a: string)
    requires a == "check http://x.co now!"
    ensures a == a[..5] + " " + (a[6..17] + " " + a[18..])
    ensures a[..5] == "check" && a[6..17] == "http://x.co" && a[18..] == "now!"
  {
  }

  lemma ExampleNoUrl(a: string)
    requires a == "check" || a == "now!"
    ensures StripUrls(a) == a
  {
    NoUrlHere(a);
  }

  lemma ExampleUrl(u: string)
    requires u == "http://x.co"
    ensures StripUrls(u) == ""
  {
  }

  lemma ExampleUrls(a: string)
    requires a == "check http://x.co now!"
    ensures StripUrls(a) == a[..5] + " " + ("" + " " + a[18..])
  {
    ExampleSlices(a);
    var x, u, y := a[..5], a[6..17], a[18..];
    StripUrlsAroundSpace(x, u + " " + y);
    StripUrlsAroundSpace(u, y);
    ExampleNoUrl(x);
    ExampleNoUrl(y);
    ExampleUrl(u);
  }

  lemma ExampleWords(x: string, y: string)
    requires x == "check" && y == "now!"
    ensures RemovePunctuation(x) == x && RemovePunctuation("  ") == "  " && RemovePunctuation(y) == "now"
    ensures forall i :: 0 <= i < |x + "  " + y| ==> (x + "  " + y)[i] != '@' && (x + "  " + y)[i] != '#'
  {
    NoPunctIdentity(x);
    NoPunctIdentity("  ");
    ExampleBang(y);
    ExampleNoTagChars(x + "  " + y);
  }

  lemma ExampleBang(y: string)
    requires y == "now!"
    ensures RemovePunctuation(y) == "now"
  {
    assert y == y[..3] + y[3..];
    RemovePunctuationAppend(y[..3], y[3..]);
    NoPunctIdentity(y[..3]);
    assert y[3..][1..] == [];
  }

  lemma ExampleNoTagChars(t: string)
    requires t == "check  now!"
    ensures forall i :: 0 <= i < |t| ==> t[i] != '@' && t[i] != '#'
  {
  }

  lemma ExampleSplitSlices(d: string)
    requires d == "check  now"
    ensures d == d[..5] + " " + d[6..] && d[..5] == "check" && d[6..] == " now"
  {
  }

  lemma ExampleLeadingBlank(t: string)
    requires t == " now"
    ensures Split(t) == Split(t[1..]) && t[1..] == "now"
  {
  }

  lemma ExampleWord(w: string)
    requires w == "check" || w == "now"
    ensures Split(w) == [w]
  {
    SplitWord(w);
  }

  lemma ExampleSplit(d: string)
    requires d == "check  now"
    ensures Split(d) == ["check", "now"]
  {
    ExampleSplitSlices(d);
    SplitAroundSpace(d[..5], d[6..]);
    ExampleLeadingBlank(d[6..]);
    ExampleWord(d[..5]);
    ExampleWord(d[6..][1..]);
  }

  lemma ExampleTokens(x: string, y: string)
    requires x == "check" && y == "now!"
    ensures CollapseWhitespace(RemovePunctuation(StripTags(x + "  " + y))) == "check now"
  {
    ExampleWords(x, y);
    NoTagIdentity(x + "  " + y);
    RemovePunctuationAppend(x + "  ", y);
    RemovePunctuationAppend(x, "  ");
    assert x + "  " + "now" == "check  now";
    ExampleSplit(RemovePunctuation(x + "  " + y));
    ExampleJoin(Split(RemovePunctuation(x + "  " + y)));
  }

  lemma ExampleJoin(ws: seq<string>)
    requires ws == ["check", "now"]
    ensures JoinWith(" ", ws) == "check now"
  {
    assert ws[1..] == ["now"];
  }

  lemma ExampleLower(s: string)
    requires s == "Check http://x.co now!"
    ensures Lower(s) == "check http://x.co now!"
  {
  }

  lemma ExampleStripped(a: string)
    requires a == "check http://x.co now!"
    ensures StripTags(StripUrls(a)) == StripTags(a[..5] + "  " + a[18..])
    ensures a[..5] == "check" && a[18..] == "now!"
  {
    ExampleUrls(a);
    ExampleSlices(a);
    assert a[..5] + " " + ("" + " " + a[18..]) == a[..5] + "  " + a[18..];
  }

  lemma CleanTextExample(s: string, stopwords: set<string>)
    requires s == "Check http://x.co now!"
    ensures CleanText(Str(s), stopwords, false, true) == "check now"
  {
    ExampleLower(s);
    var a := Lower(s);
    ExampleStripped(a);
    ExampleTokens(a[..5], a[18..]);
  }

  lemma FirstPassNoUrl(s: string)
    requires s == "xhtt.py"
    ensures forall i :: 0 <= i < |s| ==> !UrlAt(s[i..])
  {
    forall i | 0 <= i < |s| ensures !UrlAt(s[i..]) {
      var t := s[i..];
      assert t[0] == s[i];
      if |t| > 3 { assert t[..3][0] == t[0]; }
      if |t| > 4 { assert t[..4][0] == t[0]; assert t[..4][3] == s[i + 3]; }
    }
  }

  lemma FirstPassLower(s: string)
    requires s == "xhtt.py" || s == "xhttpy"
    ensures Lower(s) == s
  {
  }

  lemma FirstPassUrls(s: string)
    requires s == "xhtt.py"
    ensures Lower(s) == s && StripUrls(s) == s && StripTags(s) == s
  {
    FirstPassLower(s);
    FirstPassNoUrl(s);
    NoUrlIdentity(s);
    NoTagIdentity(s);
  }

  lemma FirstPassPunct(s: string)
    requires s == "xhtt.py"
    ensures RemovePunctuation(s) == "xhttpy"
  {
    assert s == s[..4] + s[4..];
    RemovePunctuationAppend(s[..4], s[4..]);
    NoPunctIdentity(s[..4]);
    assert s[4..][1..] == "py";
    NoPunctIdentity("py");
  }

  lemma SingleWord(w: string)
    requires w == "xhttpy" || w == "x"
    ensures CollapseWhitespace(w) == w
  {
    SplitWord(w);
  }

  lemma SecondPassUrls(t: string)
    requires t == "xhttpy"
    ensures Lower(t) == t && StripUrls(t) == "x"
  {
    assert !UrlAt(t) by { assert t[..3][0] == 'x'; assert t[..4][0] == 'x'; }
    var u := t[1..];
    assert u == "httpy";
    assert UrlAt(u);
    RunLenUnique(u, 5);
    assert u[5..] == [];
    assert StripUrls(u) == StripUrls(u[5..]) == "";
    assert t == [t[0]] + u;
    assert StripUrls(t) == [t[0]] + StripUrls(u);
    FirstPassLower(t);
  }

  lemma SecondPassRest(x: string)
    requires x == "x"
    ensures RemovePunctuation(StripTags(x)) == x
  {
    NoTagIdentity(x);
    NoPunctIdentity(x);
  }

  /** Cleaning is not idempotent: URL deletion runs before punctuation deletion. */
  lemma CleanTextNotIdempotent(s: string, stopwords: set<string>)
    requires s == "xhtt.py"
    ensures CleanText(Str(s), stopwords, false, true) == "xhttpy"
    ensures CleanText(Str(CleanText(Str(s), stopwords, false, true)), stopwords, false, true) == "x"
  {
    FirstPassUrls(s);
    FirstPassPunct(s);
    SingleWord(RemovePunctuation(s));
    var once := CleanText(Str(s), stopwords, false, true);
    SecondPassUrls(once);
    SecondPassRest(StripUrls(once));
    SingleWord(RemovePunctuation(StripTags(StripUrls(once))));
  }
}
