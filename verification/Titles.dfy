/** What two titles are compared by (`title_tokens` and `jaccard`, src/reviewhive/graph/dedupe.py), on the
    titles themselves. */
module Titles {
  import opened Text

  // ---------------------------------------------------------------- words

  predicate WordChar(c: char) {
    'a' <= c <= 'z' || '0' <= c <= '9' || c == '_'
  }

  ghost predicate AllWord(s: string) {
    forall i :: 0 <= i < |s| ==> WordChar(s[i])
  }

  /** `w` stands between `i` and `j`, is made of word characters, and cannot be extended either way. */
  ghost predicate RunAt(s: string, w: string, i: int, j: int) {
    && 0 <= i < j <= |s| && s[i..j] == w && AllWord(w)
    && (i == 0 || !WordChar(s[i - 1]))
    && (j == |s| || !WordChar(s[j]))
  }

  ghost predicate IsRun(s: string, w: string) {
    exists i, j :: RunAt(s, w, i, j)
  }

  lemma {:induction false} OneRun(s: string, w: string)
    requires AllWord(s)
    ensures IsRun(s, w) <==> s != "" && w == s
  {
    if i, j :| RunAt(s, w, i, j) {
      assert i == 0 && j == |s|;
      assert s[0..|s|] == s;
    }
    if s != "" && w == s {
      assert s[0..|s|] == s;
      assert RunAt(s, w, 0, |s|);
    }
  }

  /** A separator ends one run, and what follows it is on its own. */
  lemma {:induction false} RunsAfter(front: string, c: char, rest: string, w: string)
    requires AllWord(front) && !WordChar(c)
    ensures IsRun(front + [c] + rest, w) <==> (front != "" && w == front) || IsRun(rest, w)
  {
    var s, k := front + [c] + rest, |front| + 1;
    assert s[|front|] == c && s[..|front|] == front && s[k..] == rest;
    if i, j :| RunAt(s, w, i, j) {
      if i < |front| {
        RunStopsAt(s, w, i, j, |front|);
      } else {
        RunStartsAfter(s, w, i, j, |front|);
        RunShifts(s, rest, w, i - k, j - k, k);
      }
    }
    if front != "" && w == front {
      assert RunAt(s, w, 0, |front|);
    }
    if i, j :| RunAt(rest, w, i, j) {
      RunShifts(s, rest, w, i, j, k);
    }
  }

  lemma {:induction false} RunShifts(s: string, rest: string, w: string, i: int, j: int, k: nat)
    requires 0 < k <= |s| && rest == s[k..] && !WordChar(s[k - 1]) && 0 <= i < j <= |rest|
    ensures RunAt(rest, w, i, j) <==> RunAt(s, w, i + k, j + k)
  {
    assert s[i + k..j + k] == rest[i..j];
  }

  lemma {:induction false} RunStopsAt(s: string, w: string, i: int, j: int, k: nat)
    requires RunAt(s, w, i, j) && i < k < |s| && !WordChar(s[k]) && forall m :: 0 <= m < k ==> WordChar(s[m])
    ensures i == 0 && j == k
  {
    assert forall m :: i <= m < j ==> w[m - i] == s[m];
  }

  lemma {:induction false} RunStartsAfter(s: string, w: string, i: int, j: int, k: nat)
    requires RunAt(s, w, i, j) && k <= i && k < |s| && !WordChar(s[k])
    ensures k < i
  {
    assert w[0] == s[i];
  }

  /** `_WORD.findall` finds exactly the maximal runs of word characters. */
  lemma {:induction false} WordsAre(s: string, current: string, w: string)
    requires AllWord(current)
    ensures w in Words(s, current) <==> IsRun(current + s, w)
  {
    if s == [] {
      assert current + s == current;
      OneRun(current, w);
    } else if WordChar(s[0]) {
      assert current + [s[0]] + s[1..] == current + s;
      WordsAre(s[1..], current + [s[0]], w);
    } else {
      assert current + [s[0]] + s[1..] == current + s;
      RunsAfter(current, s[0], s[1..], w);
      WordsAre(s[1..], "", w);
      assert "" + s[1..] == s[1..];
    }
  }

  /** The tokens of a title: the words of its lower-case, hyphen-joined form that are not filler. */
  lemma {:induction false} TokensAre(title: string, w: string)
    ensures w in TitleTokens(title) <==> IsRun(JoinHyphens(Lower(title), 0), w) && !IsStopword(w)
  {
    WordsAre(JoinHyphens(Lower(title), 0), "", w);
    assert "" + JoinHyphens(Lower(title), 0) == JoinHyphens(Lower(title), 0);
  }

  // ---------------------------------------------------------------- hyphens

  predicate IsLetterOrDigit(c: char) {
    'a' <= c <= 'z' || '0' <= c <= '9'
  }

  /** The hyphen at `i` is inside a compound. */
  ghost predicate InCompound(s: string, i: int) {
    && 0 < i < |s| - 1 && s[i] == '-'
    && IsLetterOrDigit(s[i - 1]) && IsLetterOrDigit(s[i + 1])
  }

  /** Without a compound there is nothing to join. */
  lemma {:induction false} NothingToJoin(s: string, i: nat)
    requires i <= |s| && forall k :: i <= k < |s| ==> !InCompound(s, k)
    ensures JoinHyphens(s, i) == s[i..]
    decreases |s| - i
  {
    if i < |s| {
      NothingToJoin(s, i + 1);
      assert !InCompound(s, i);
      assert s[i..] == [s[i]] + s[i + 1..];
    }
  }

  /** Joining looks at a character and its two neighbours: past a common part it does the same. */
  lemma {:induction false} JoinsTheSame(s: string, t: string, i: nat, k: nat)
    requires i <= |s| && k <= |t| && s[i..] == t[k..]
    requires i < |s| ==> (IntraWordHyphen(s, i) <==> IntraWordHyphen(t, k))
    ensures JoinHyphens(s, i) == JoinHyphens(t, k)
    decreases |s| - i
  {
    if i < |s| {
      assert s[i] == s[i..][0] == t[k..][0] == t[k];
      assert s[i + 1..] == s[i..][1..] == t[k..][1..] == t[k + 1..];
      if i + 1 < |s| {
        SameNeighbours(s, t, i, k);
      }
      JoinsTheSame(s, t, i + 1, k + 1);
    }
  }

  lemma {:induction false} SameNeighbours(s: string, t: string, i: nat, k: nat)
    requires i + 1 < |s| && k < |t| && s[i..] == t[k..]
    ensures k + 1 < |t| && (IntraWordHyphen(s, i + 1) <==> IntraWordHyphen(t, k + 1))
  {
    assert forall d :: 0 <= d < |s| - i ==> s[i..][d] == s[i + d] && t[k..][d] == t[k + d];
    assert s[i..][1] == t[k..][1] && s[i..][0] == t[k..][0];
    if i + 2 < |s| {
      assert s[i..][2] == t[k..][2];
    }
  }

  /** The two spellings of a compound are one, wherever it stands. */
  lemma {:induction false} HyphenJoins(a: string, b: string, i: nat)
    requires a != "" && b != "" && IsLetterOrDigit(a[|a| - 1]) && IsLetterOrDigit(b[0])
    requires i <= |a|
    ensures JoinHyphens(a + "-" + b, i) == JoinHyphens(a + b, i)
    decreases |a| - i
  {
    var s, t := a + "-" + b, a + b;
    if i == |a| {
      assert s[i] == '-' && s[i - 1] == a[i - 1] && s[i + 1] == b[0] && t[i] == b[0];
      assert IntraWordHyphen(s, i);
      assert s[i + 1..] == b == t[i..];
      assert !IntraWordHyphen(s, i + 1) && !IntraWordHyphen(t, i);
      JoinsTheSame(s, t, i + 1, i);
    } else {
      HyphenJoins(a, b, i + 1);
      SameInFront(a, b, i);
    }
  }

  lemma {:induction false} SameInFront(a: string, b: string, i: nat)
    requires a != "" && b != "" && IsLetterOrDigit(a[|a| - 1]) && i < |a|
    ensures (a + "-" + b)[i] == (a + b)[i] == a[i]
    ensures IntraWordHyphen(a + "-" + b, i) <==> IntraWordHyphen(a + b, i)
  {
    var s, t := a + "-" + b, a + b;
    if i + 1 < |a| {
      assert s[i + 1] == a[i + 1] == t[i + 1];
    }
  }

  lemma {:induction false} LowerConcat(a: string, b: string)
    ensures Lower(a + b) == Lower(a) + Lower(b)
  {
  }

  predicate IsCapital(c: char) {
    'A' <= c <= 'Z'
  }

  /** "Hard-coded" and "hardcoded" are one word: a hyphen between two letters or digits makes no difference to a
      title's tokens. */
  lemma {:induction false} HyphenMakesNoDifference(a: string, b: string)
    requires a != "" && b != ""
    requires IsLetterOrDigit(a[|a| - 1]) || IsCapital(a[|a| - 1])
    requires IsLetterOrDigit(b[0]) || IsCapital(b[0])
    ensures TitleTokens(a + "-" + b) == TitleTokens(a + b)
  {
    LowerConcat(a + "-", b);
    LowerConcat(a, "-");
    LowerConcat(a, b);
    assert Lower("-") == "-";
    HyphenJoins(Lower(a), Lower(b), 0);
  }

  /** Nor does case: a capital and its small letter give the same tokens. */
  lemma {:induction false} CaseMakesNoDifference(title: string, i: nat)
    requires i < |title| && IsCapital(title[i])
    ensures TitleTokens(title) == TitleTokens(title[i := (title[i] as int + 32) as char])
  {
    assert Lower(title) == Lower(title[i := (title[i] as int + 32) as char]);
  }

  // ---------------------------------------------------------------- similarity

  /** Shared words over all words: between none and all, and at least a threshold exactly when that share of all
      the words is shared. */
  lemma {:induction false} SimilarityIs(left: set<string>, right: set<string>, threshold: real)
    ensures 0.0 <= Jaccard(left, right) <= 1.0
    ensures left != {} && right != {} ==>
              (Jaccard(left, right) >= threshold <==> |left * right| as real >= threshold * |left + right| as real)
    ensures left == {} || right == {} ==> Jaccard(left, right) == 0.0
  {
    if left != {} && right != {} {
      UnionInhabited(left, right);
      SharedAreFewer(left, right);
      QuotientAtLeast(|left * right| as real, |left + right| as real, threshold);
      QuotientAtLeast(|left * right| as real, |left + right| as real, 0.0);
      QuotientAtMostOne(|left * right| as real, |left + right| as real);
    }
  }

  lemma {:induction false} QuotientAtLeast(a: real, b: real, t: real)
    requires b > 0.0
    ensures a / b >= t <==> a >= t * b
  {
    var q := a / b;
    assert q * b == a;
    assert q >= t <==> q * b >= t * b by {
      ScaledAtLeast(q, t, b);
    }
  }

  lemma ScaledAtLeast(q: real, t: real, b: real)
    requires b > 0.0
    ensures q >= t <==> q * b >= t * b
  {
    assert (q - t) * b == q * b - t * b;
    assert q > t ==> (q - t) * b > 0.0;
    assert q < t ==> (t - q) * b > 0.0;
  }

  lemma QuotientAtMostOne(a: real, b: real)
    requires b > 0.0 && a <= b
    ensures a / b <= 1.0
  {
  }

  lemma {:induction false} SharedAreFewer(left: set<string>, right: set<string>)
    ensures |left * right| <= |left + right|
  {
    assert left * right <= left;
    Fewer(left * right, left + right);
  }

  lemma {:induction false} Fewer(a: set<string>, b: set<string>)
    requires a <= b
    ensures |a| <= |b|
  {
    if a != {} {
      var x :| x in a;
      Fewer(a - {x}, b - {x});
    }
  }
}
