/**
 * Python's whitespace handling on `str`: `str.isspace`, `str.split()` with no
 * argument, `sep.join(...)`, and the subsequence relation used to say that a
 * rewrite only deletes characters.
 */
module Strings {

  /** `c.isspace()` in Python: the ASCII controls 9-13 and 28-31, the space,
      and the fixed list of Unicode separators Python also treats as blanks. */
  predicate IsSpace(c: char) {
    ('\t' <= c <= '\r') || ('\U{1C}' <= c <= ' ') || c == '\U{85}' || c == '\U{A0}'
    || c == '\U{1680}' || ('\U{2000}' <= c <= '\U{200A}') || c == '\U{2028}'
    || c == '\U{2029}' || c == '\U{202F}' || c == '\U{205F}' || c == '\U{3000}'
  }

  predicate NoSpace(w: string) {
    forall i :: 0 <= i < |w| ==> !IsSpace(w[i])
  }

  /** A token that `str.split()` can produce: non-empty, no whitespace. */
  predicate IsWord(w: string) {
    w != [] && NoSpace(w)
  }

  /** Length of the longest whitespace-free prefix of `s`. */
  function RunLen(s: string): (k: nat)
    ensures k <= |s|
    ensures forall i :: 0 <= i < k ==> !IsSpace(s[i])
    ensures k == |s| || IsSpace(s[k])
  {
    if s == [] || IsSpace(s[0]) then 0 else 1 + RunLen(s[1..])
  }

  /** `s.split()`: the maximal whitespace-free runs of `s`, in order. */
  function Split(s: string): (ws: seq<string>)
    ensures forall k :: 0 <= k < |ws| ==> IsWord(ws[k])
    decreases |s|
  {
    if s == [] then []
    else if IsSpace(s[0]) then Split(s[1..])
    else
      var k := RunLen(s);
      [s[..k]] + Split(s[k..])
  }

  /** `sep.join(parts)`. */
  function JoinWith(sep: string, parts: seq<string>): string
  {
    if parts == [] then ""
    else if |parts| == 1 then parts[0]
    else parts[0] + sep + JoinWith(sep, parts[1..])
  }

  /** All tokens of all comments, comment by comment. */
  function Tokens(comments: seq<string>): seq<string>
  {
    if comments == [] then [] else Split(comments[0]) + Tokens(comments[1..])
  }

  function Concat(ws: seq<string>): string
  {
    if ws == [] then "" else ws[0] + Concat(ws[1..])
  }

  /** The non-whitespace characters of `s`, in order. */
  function NonSpace(s: string): string
  {
    if s == [] then "" else (if IsSpace(s[0]) then "" else [s[0]]) + NonSpace(s[1..])
  }

  /** No leading or trailing whitespace, and tokens separated by exactly one ' '. */
  ghost predicate SingleSpaced(s: string) {
    forall i :: 0 <= i < |s| && IsSpace(s[i]) ==> s[i] == ' ' && 0 < i < |s| - 1 && !IsSpace(s[i + 1])
  }

  /** `a` can be obtained from `b` by deleting elements. */
  predicate IsSubseq<T(==)>(a: seq<T>, b: seq<T>)
    decreases |b|
  {
    a == [] || (b != [] && ((a[0] == b[0] && IsSubseq(a[1..], b[1..])) || IsSubseq(a, b[1..])))
  }

  // ---------------------------------------------------------------------------
  // split / join

  lemma {:induction false} RunLenUnique(s: string, k: nat)
    requires k <= |s|
    requires forall i :: 0 <= i < k ==> !IsSpace(s[i])
    requires k == |s| || IsSpace(s[k])
    ensures RunLen(s) == k
  {
    if k > 0 {
      RunLenUnique(s[1..], k - 1);
    }
  }

  lemma SplitWord(w: string)
    requires IsWord(w)
    ensures Split(w) == [w]
  {
    RunLenUnique(w, |w|);
    assert w[|w|..] == [];
    assert w[..|w|] == w;
  }

  /** Splitting text that contains a separating blank splits both sides. */
  lemma {:induction false} SplitAroundSpace(a: string, b: string)
    ensures Split(a + " " + b) == Split(a) + Split(b)
    decreases |a|
  {
    if a == [] {
      SplitBlankFirst(b);
    } else if IsSpace(a[0]) {
      SplitAroundSpace(a[1..], b);
      SplitSpaceFirst(a, b);
    } else {
      var k := RunLen(a);
      SplitAroundSpace(a[k..], b);
      SplitRunFirst(a, b, k);
    }
  }

  lemma SplitBlankFirst(b: string)
    ensures Split([] + " " + b) == Split([]) + Split(b)
  {
    var t := [] + " " + b;
    assert t[0] == ' ' && t[1..] == b;
  }

  lemma SplitSpaceFirst(a: string, b: string)
    requires a != [] && IsSpace(a[0])
    requires Split(a[1..] + " " + b) == Split(a[1..]) + Split(b)
    ensures Split(a + " " + b) == Split(a) + Split(b)
  {
    var t := a + " " + b;
    assert t[0] == a[0] && t[1..] == a[1..] + " " + b;
  }

  lemma SplitRunFirst(a: string, b: string, k: nat)
    requires a != [] && !IsSpace(a[0]) && k == RunLen(a)
    requires Split(a[k..] + " " + b) == Split(a[k..]) + Split(b)
    ensures Split(a + " " + b) == Split(a) + Split(b)
  {
    var c, w, r := " " + b, a[..k], a[k..];
    ConcatAssoc(a, " ", b);
    ConcatAssoc(r, " ", b);
    SplitFirstRun(a, c, k);
    assert Split(a + c) == [w] + Split(r + c);
    ConcatAssoc([w], Split(r), Split(b));
  }

  lemma ConcatAssoc<T>(x: seq<T>, y: seq<T>, z: seq<T>)
    ensures x + (y + z) == (x + y) + z
  {
  }

  /** A first run of `a` ending before a blank of `c` is also the first token of `a + c`. */
  lemma SplitFirstRun(a: string, c: string, k: nat)
    requires a != [] && !IsSpace(a[0]) && k == RunLen(a)
    requires c != [] && IsSpace(c[0])
    ensures Split(a) == [a[..k]] + Split(a[k..])
    ensures Split(a + c) == [a[..k]] + Split(a[k..] + c)
  {
    var t := a + c;
    AppendSlices(a, c, k);
    RunLenUnique(t, k);
    assert Split(t) == [t[..k]] + Split(t[k..]);
  }

  /** Cutting `a + c` inside `a`, and where the first run of `a` ends. */
  lemma AppendSlices(a: string, c: string, k: nat)
    requires k == RunLen(a) && c != [] && IsSpace(c[0])
    ensures (a + c)[..k] == a[..k] && (a + c)[k..] == a[k..] + c
    ensures forall i :: 0 <= i < k ==> !IsSpace((a + c)[i])
    ensures IsSpace((a + c)[k])
  {
    var t := a + c;
    assert t == a[..k] + (a[k..] + c);
    forall i | 0 <= i < k ensures !IsSpace(t[i]) { assert t[i] == a[i]; }
    if k < |a| { assert t[k] == a[k]; } else { assert t[k] == c[0]; }
  }

  /** `" ".join(ws).split() == ws` when every element is a token. */
  lemma {:induction false} SplitJoin(ws: seq<string>)
    requires forall k :: 0 <= k < |ws| ==> IsWord(ws[k])
    ensures Split(JoinWith(" ", ws)) == ws
  {
    if |ws| == 1 {
      SplitWord(ws[0]);
    } else if |ws| > 1 {
      SplitAroundSpace(ws[0], JoinWith(" ", ws[1..]));
      SplitWord(ws[0]);
      SplitJoin(ws[1..]);
    }
  }

  /** `" ".join(comments).split()` are the tokens of the comments, in order:
      joining never glues the last token of one comment to the next. */
  lemma {:induction false} SplitJoinTokens(comments: seq<string>)
    ensures Split(JoinWith(" ", comments)) == Tokens(comments)
  {
    if |comments| == 1 {
      assert Tokens(comments) == Split(comments[0]) + Tokens([]);
    } else if |comments| > 1 {
      SplitAroundSpace(comments[0], JoinWith(" ", comments[1..]));
      SplitJoinTokens(comments[1..]);
    }
  }

  /** `" ".join` of tokens is single-spaced and starts and ends with a token character. */
  lemma {:induction false} JoinSingleSpaced(ws: seq<string>)
    requires forall k :: 0 <= k < |ws| ==> IsWord(ws[k])
    ensures SingleSpaced(JoinWith(" ", ws))
    ensures ws != [] ==> |JoinWith(" ", ws)| > 0
    ensures ws != [] ==> !IsSpace(JoinWith(" ", ws)[0])
    ensures ws != [] ==> !IsSpace(JoinWith(" ", ws)[|JoinWith(" ", ws)| - 1])
  {
    if |ws| > 1 {
      var w, t := ws[0], JoinWith(" ", ws[1..]);
      JoinSingleSpaced(ws[1..]);
      var j := w + " " + t;
      assert JoinWith(" ", ws) == j;
      forall i | 0 <= i < |j| && IsSpace(j[i])
        ensures j[i] == ' ' && 0 < i < |j| - 1 && !IsSpace(j[i + 1])
      {
        if i == |w| {
          assert j[i + 1] == t[0];
        } else if i > |w| {
          assert j[i] == t[i - |w| - 1];
          if i < |j| - 1 {
            assert j[i + 1] == t[i - |w|];
          }
        }
      }
      assert j[0] == w[0];
      assert j[|j| - 1] == t[|t| - 1];
    }
  }

  // ---------------------------------------------------------------------------
  // non-whitespace characters

  lemma {:induction false} NonSpaceAppend(a: string, b: string)
    ensures NonSpace(a + b) == NonSpace(a) + NonSpace(b)
  {
    if a == [] {
      assert a + b == b;
    } else {
      assert (a + b)[0] == a[0];
      assert (a + b)[1..] == a[1..] + b;
      NonSpaceAppend(a[1..], b);
    }
  }

  lemma {:induction false} NonSpaceOfNoSpace(w: string)
    requires NoSpace(w)
    ensures NonSpace(w) == w
  {
    if w != [] {
      NonSpaceOfNoSpace(w[1..]);
    }
  }

  /** Collapsing whitespace keeps every non-whitespace character: the
      non-whitespace characters of `s` are its tokens glued together. */
  lemma {:induction false} NonSpaceSplit(s: string)
    ensures NonSpace(s) == Concat(Split(s))
    decreases |s|
  {
    if s != [] {
      if IsSpace(s[0]) {
        NonSpaceSplit(s[1..]);
      } else {
        var k := RunLen(s);
        assert s == s[..k] + s[k..];
        NonSpaceAppend(s[..k], s[k..]);
        NonSpaceOfNoSpace(s[..k]);
        NonSpaceSplit(s[k..]);
      }
    }
  }

  lemma {:induction false} NonSpaceJoin(ws: seq<string>)
    requires forall k :: 0 <= k < |ws| ==> IsWord(ws[k])
    ensures NonSpace(JoinWith(" ", ws)) == Concat(ws)
  {
    if |ws| == 1 {
      NonSpaceOfNoSpace(ws[0]);
    } else if |ws| > 1 {
      NonSpaceAppend(ws[0] + " ", JoinWith(" ", ws[1..]));
      NonSpaceAppend(ws[0], " ");
      NonSpaceOfNoSpace(ws[0]);
      NonSpaceJoin(ws[1..]);
    }
  }

  lemma {:induction false} NonSpaceKeeps(s: string, i: nat)
    requires i < |s| && !IsSpace(s[i])
    ensures s[i] in NonSpace(s)
  {
    if i > 0 {
      NonSpaceKeeps(s[1..], i - 1);
    }
  }

  // ---------------------------------------------------------------------------
  // subsequences

  lemma {:induction false} SubseqRefl<T>(a: seq<T>)
    ensures IsSubseq(a, a)
  {
    if a != [] {
      SubseqRefl(a[1..]);
    }
  }

  lemma {:induction false} SubseqTrans<T>(a: seq<T>, b: seq<T>, c: seq<T>)
    requires IsSubseq(a, b) && IsSubseq(b, c)
    ensures IsSubseq(a, c)
    decreases |c|
  {
    if a != [] {
      if IsSubseq(b, c[1..]) {
        SubseqTrans(a, b, c[1..]);
      } else if IsSubseq(a, b[1..]) {
        SubseqTrans(a, b[1..], c[1..]);
      } else {
        SubseqTrans(a[1..], b[1..], c[1..]);
      }
    }
  }

  lemma {:induction false} SubseqDrop<T>(a: seq<T>, b: seq<T>, k: nat)
    requires k <= |b| && IsSubseq(a, b[k..])
    ensures IsSubseq(a, b)
  {
    if k > 0 {
      assert b[1..][k - 1..] == b[k..];
      SubseqDrop(a, b[1..], k - 1);
    }
  }

  lemma {:induction false} SubseqPrefix<T>(p: seq<T>, a: seq<T>, b: seq<T>)
    requires IsSubseq(a, b)
    ensures IsSubseq(p + a, p + b)
    ensures IsSubseq(a, p + b)
  {
    if p == [] {
      assert p + a == a && p + b == b;
    } else {
      SubseqPrefix(p[1..], a, b);
      assert (p + a)[1..] == p[1..] + a;
      assert (p + b)[1..] == p[1..] + b;
    }
  }

  lemma {:induction false} SubseqMember<T>(a: seq<T>, b: seq<T>, x: T)
    requires IsSubseq(a, b) && x in a
    ensures x in b
    decreases |b|
  {
    if IsSubseq(a, b[1..]) {
      SubseqMember(a, b[1..], x);
    } else if x != a[0] {
      SubseqMember(a[1..], b[1..], x);
    }
  }

  lemma {:induction false} NonSpaceSubseqSelf(s: string)
    ensures IsSubseq(NonSpace(s), s)
  {
    if s != [] {
      NonSpaceSubseqSelf(s[1..]);
      if IsSpace(s[0]) {
        assert NonSpace(s) == NonSpace(s[1..]);
        SubseqDrop(NonSpace(s), s, 1);
      } else {
        assert NonSpace(s) == [s[0]] + NonSpace(s[1..]);
        assert NonSpace(s)[1..] == NonSpace(s[1..]);
      }
    }
  }

  /** Deleting characters from `b` deletes non-whitespace characters from `NonSpace(b)`. */
  lemma {:induction false} NonSpaceMono(a: string, b: string)
    requires IsSubseq(a, b)
    ensures IsSubseq(NonSpace(a), NonSpace(b))
    decreases |b|
  {
    if a != [] {
      if IsSubseq(a, b[1..]) {
        NonSpaceMono(a, b[1..]);
        SubseqPrefix(if IsSpace(b[0]) then "" else [b[0]], NonSpace(a), NonSpace(b[1..]));
      } else {
        NonSpaceMono(a[1..], b[1..]);
        SubseqPrefix(if IsSpace(b[0]) then "" else [b[0]], NonSpace(a[1..]), NonSpace(b[1..]));
      }
    }
  }

  /** Dropping whole tokens only deletes characters of their concatenation. */
  lemma {:induction false} ConcatMono(a: seq<string>, b: seq<string>)
    requires IsSubseq(a, b)
    ensures IsSubseq(Concat(a), Concat(b))
    decreases |b|
  {
    if a != [] {
      if IsSubseq(a, b[1..]) {
        ConcatMono(a, b[1..]);
        SubseqPrefix(b[0], Concat(a), Concat(b[1..]));
      } else {
        ConcatMono(a[1..], b[1..]);
        SubseqPrefix(b[0], Concat(a[1..]), Concat(b[1..]));
      }
    }
  }

  /** Every non-whitespace character of `r` occurs in `d` when the
      non-whitespace characters of `r` are a subsequence of `d`. */
  lemma NonSpaceCharsFrom(r: string, d: string)
    requires IsSubseq(NonSpace(r), d)
    ensures forall i :: 0 <= i < |r| && !IsSpace(r[i]) ==> r[i] in d
  {
    forall i | 0 <= i < |r| && !IsSpace(r[i])
      ensures r[i] in d
    {
      NonSpaceKeeps(r, i);
      SubseqMember(NonSpace(r), d, r[i]);
    }
  }
}
