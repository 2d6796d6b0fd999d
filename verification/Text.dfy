/** String handling: path normalisation, title tokens, decimal numbers. */
module Text {
  /** The characters Python's `str.strip` removes. */
  predicate IsSpace(c: char) {
    var n := c as int;
    || 0x09 <= n <= 0x0D || 0x1C <= n <= 0x20 || n == 0x85 || n == 0xA0 || n == 0x1680
    || 0x2000 <= n <= 0x200A || n == 0x2028 || n == 0x2029 || n == 0x202F || n == 0x205F || n == 0x3000
  }

  function StripLeft(s: string): string {
    if s != [] && IsSpace(s[0]) then StripLeft(s[1..]) else s
  }

  function StripRight(s: string): string {
    if s != [] && IsSpace(s[|s| - 1]) then StripRight(s[..|s| - 1]) else s
  }

  function Strip(s: string): string {
    StripRight(StripLeft(s))
  }

  predicate Trimmed(s: string) {
    s == [] || (!IsSpace(s[0]) && !IsSpace(s[|s| - 1]))
  }

  lemma {:induction false} StripLeftStarts(s: string)
    ensures var r := StripLeft(s); |r| <= |s| && r == s[|s| - |r|..] && (r == [] || !IsSpace(r[0]))
  {
    if s != [] && IsSpace(s[0]) {
      StripLeftStarts(s[1..]);
    }
  }

  lemma {:induction false} StripRightEnds(s: string)
    ensures var r := StripRight(s); |r| <= |s| && r == s[..|r|] && (r == [] || !IsSpace(r[|r| - 1]))
  {
    if s != [] && IsSpace(s[|s| - 1]) {
      StripRightEnds(s[..|s| - 1]);
    }
  }

  /** `strip` trims both ends, and leaves exactly the trimmed strings alone. */
  lemma {:induction false} StripTrims(s: string)
    ensures Trimmed(Strip(s)) && (Strip(s) == s <==> Trimmed(s))
    ensures forall c <- Strip(s) :: c in s
  {
    StripLeftStarts(s);
    StripRightEnds(StripLeft(s));
  }

  lemma {:induction false} LeftIsSpace(s: string)
    ensures |StripLeft(s)| <= |s| && forall i :: 0 <= i < |s| - |StripLeft(s)| ==> IsSpace(s[i])
  {
    if s != [] && IsSpace(s[0]) {
      LeftIsSpace(s[1..]);
    }
  }

  lemma {:induction false} RightIsSpace(s: string)
    ensures |StripRight(s)| <= |s| && forall i :: |StripRight(s)| <= i < |s| ==> IsSpace(s[i])
  {
    if s != [] && IsSpace(s[|s| - 1]) {
      RightIsSpace(s[..|s| - 1]);
    }
  }

  /** What `strip` takes away is the spaces at the two ends, and all of them. */
  lemma {:induction false} StripsSpaces(s: string) returns (from: nat, to: nat)
    ensures from <= to <= |s| && Strip(s) == s[from..to] && Trimmed(s[from..to])
    ensures forall i :: 0 <= i < from || to <= i < |s| ==> IsSpace(s[i])
  {
    StripTrims(s);
    LeftIsSpace(s);
    StripLeftStarts(s);
    RightIsSpace(StripLeft(s));
    StripRightEnds(StripLeft(s));
    from := |s| - |StripLeft(s)|;
    to := from + |Strip(s)|;
  }

  // ---------------------------------------------------------------- paths

  function ForwardSlashes(s: string): string {
    seq(|s|, i requires 0 <= i < |s| => if s[i] == '\\' then '/' else s[i])
  }

  predicate StartsDotSlash(s: string) {
    "./" <= s
  }

  predicate StartsDiffPrefix(s: string) {
    "a/" <= s || "b/" <= s
  }

  function DropDotSlashes(s: string): string {
    if StartsDotSlash(s) then DropDotSlashes(s[2..]) else s
  }

  function DropDiffPrefix(s: string): string {
    if StartsDiffPrefix(s) then s[2..] else s
  }

  /** What `normalize_path` returns. */
  function Normalized(path: string): string {
    DropDiffPrefix(DropDotSlashes(ForwardSlashes(Strip(path))))
  }

  method NormalizePath(path: string) returns (cleaned: string)
    ensures cleaned == Normalized(path)
  {
    cleaned := ForwardSlashes(Strip(path));
    while StartsDotSlash(cleaned)
      invariant DropDotSlashes(cleaned) == DropDotSlashes(ForwardSlashes(Strip(path)))
      decreases |cleaned|
    {
      cleaned := cleaned[2..];
    }
    if StartsDiffPrefix(cleaned) {
      cleaned := cleaned[2..];
    }
  }

  /** A path `normalize_path` has nothing to do to. */
  predicate Clean(path: string) {
    && Trimmed(path)
    && '\\' !in path
    && !StartsDotSlash(path)
    && !StartsDiffPrefix(path)
  }

  lemma {:induction false} DropDotSlashesSuffix(s: string)
    ensures var r := DropDotSlashes(s);
            |r| <= |s| && r == s[|s| - |r|..] && !StartsDotSlash(r) && (r == s <==> !StartsDotSlash(s))
  {
    if StartsDotSlash(s) {
      DropDotSlashesSuffix(s[2..]);
    }
  }

  /** What every normalised path looks like: a suffix, with the right end trimmed and no backslash. */
  lemma {:induction false} NormalizedShape(path: string)
    ensures var r := Normalized(path);
            && '\\' !in r
            && (r == [] || !IsSpace(r[|r| - 1]))
            && |r| <= |Strip(path)|
  {
    var s := Strip(path);
    StripTrims(path);
    var t := ForwardSlashes(s);
    DropDotSlashesSuffix(t);
  }

  /** What `normalize_path` takes away, step by step: the spaces around the path, `./` in front as often as it
      is there, and then one `a/` or `b/`.  Backslashes become slashes. */
  lemma {:induction false} NormalizedDrops(path: string) returns (core: string, k: nat)
    ensures |core| == |Strip(path)|
    ensures forall i :: 0 <= i < |core| ==> core[i] == if Strip(path)[i] == '\\' then '/' else Strip(path)[i]
    ensures 2 * k <= |core| && !("./" <= core[2 * k..])
    ensures forall m :: 0 <= m < k ==> core[2 * m] == '.' && core[2 * m + 1] == '/'
    ensures Normalized(path)
         == if "a/" <= core[2 * k..] || "b/" <= core[2 * k..] then core[2 * k + 2..] else core[2 * k..]
  {
    core := ForwardSlashes(Strip(path));
    k := DropsDotSlashes(core);
    if StartsDiffPrefix(core[2 * k..]) {
      assert core[2 * k..][2..] == core[2 * k + 2..];
    }
  }

  lemma {:induction false} DropsDotSlashes(s: string) returns (k: nat)
    ensures 2 * k <= |s| && DropDotSlashes(s) == s[2 * k..] && !("./" <= s[2 * k..])
    ensures forall m :: 0 <= m < k ==> s[2 * m] == '.' && s[2 * m + 1] == '/'
  {
    if StartsDotSlash(s) {
      var rest := s[2..];
      var more := DropsDotSlashes(rest);
      assert s[..2] == "./";
      assert s[0] == s[..2][0] && s[1] == s[..2][1];
      k := more + 1;
      forall m | 0 <= m < k
        ensures s[2 * m] == '.' && s[2 * m + 1] == '/'
      {
        if m > 0 {
          assert rest[2 * (m - 1)] == '.' && rest[2 * (m - 1) + 1] == '/';
          assert s[2 * m] == rest[2 * (m - 1)] && s[2 * m + 1] == rest[2 * (m - 1) + 1];
        }
      }
      assert rest[2 * more..] == s[2 * k..];
    } else {
      k := 0;
    }
  }

  /** `normalize_path` leaves exactly the clean paths alone. */
  lemma {:induction false} NormalizedFixpoint(path: string)
    ensures Normalized(path) == path <==> Clean(path)
  {
    StripTrims(path);
    StripLeftStarts(path);
    StripRightEnds(StripLeft(path));
    NormalizedShape(path);
    var s := Strip(path);
    var t := ForwardSlashes(s);
    DropDotSlashesSuffix(t);
    if Clean(path) {
      assert t == s;
    }
  }

  /** `normalize_path` is not idempotent.  A second call changes the answer exactly when a space follows what
      the first one drops, or when a dropped diff prefix hides another prefix. */
  lemma {:induction false} NormalizedTwice(path: string)
    ensures Normalized(Normalized(path)) == Normalized(path)
        <==> var rest := DropDotSlashes(ForwardSlashes(Strip(path)));
             var dropped := if StartsDiffPrefix(rest) then 2 else 0;
             && !(dropped < |rest| && IsSpace(rest[dropped]))
             && !(dropped == 2 && |rest| >= 4 && rest[2] in ".ab" && rest[3] == '/')
  {
    var rest := DropDotSlashes(ForwardSlashes(Strip(path)));
    DropDotSlashesSuffix(ForwardSlashes(Strip(path)));
    NormalizedShape(path);
    NormalizedFixpoint(Normalized(path));
    if StartsDiffPrefix(rest) {
      PrefixesSpelled(rest[2..]);
    }
  }

  lemma {:induction false} PrefixesSpelled(s: string)
    ensures StartsDotSlash(s) || StartsDiffPrefix(s) <==> |s| >= 2 && s[0] in ".ab" && s[1] == '/'
  {
    if |s| >= 2 {
      assert s[..2] == [s[0], s[1]];
      assert s == s[..2] + s[2..];
    }
  }

  lemma {:induction false} NormalizedNotIdempotent()
    ensures Normalized("a/b/x.py") == "b/x.py" && Normalized("b/x.py") == "x.py"
  {
    NormalizedOfPrefixed("b/x.py");
    NormalizedOfPrefixed("x.py");
    assert "a/" + "b/x.py" == "a/b/x.py";
    assert Strip("b/x.py") == "b/x.py" by { StripTrims("b/x.py"); }
    assert ForwardSlashes("b/x.py") == "b/x.py";
  }

  /** Every normalised path is reached again from itself with a diff prefix in front. */
  lemma {:induction false} NormalizedOfPrefixed(r: string)
    requires '\\' !in r && (r == [] || !IsSpace(r[|r| - 1]))
    ensures Normalized("a/" + r) == r
  {
    var p := "a/" + r;
    assert p[0] == 'a' && p[1] == '/';
    assert Trimmed(p) by {
      assert p[|p| - 1] == if r == [] then '/' else r[|r| - 1];
    }
    StripTrims(p);
    assert Strip(p) == p;
    assert ForwardSlashes(p) == p by {
      assert forall i :: 0 <= i < |p| ==> p[i] == if i < 2 then "a/"[i] else r[i - 2];
    }
    assert DropDotSlashes(p) == p;
    assert p[2..] == r;
  }

  // ---------------------------------------------------------------- titles

  function LowerChar(c: char): char {
    if 'A' <= c <= 'Z' then (c as int + 32) as char else c
  }

  function Lower(s: string): string {
    seq(|s|, i requires 0 <= i < |s| => LowerChar(s[i]))
  }

  predicate IsAlnum(c: char) {
    'a' <= c <= 'z' || '0' <= c <= '9'
  }

  predicate IntraWordHyphen(s: string, i: nat)
    requires i < |s|
  {
    s[i] == '-' && 0 < i && IsAlnum(s[i - 1]) && i + 1 < |s| && IsAlnum(s[i + 1])
  }

  function JoinHyphens(s: string, i: nat): string
    requires i <= |s|
    decreases |s| - i
  {
    if i == |s| then []
    else (if IntraWordHyphen(s, i) then [] else [s[i]]) + JoinHyphens(s, i + 1)
  }

  /** The maximal runs of word characters, `current` being the run in progress. */
  function Words(s: string, current: string): set<string> {
    if s == [] then (if current == [] then {} else {current})
    else if IsAlnum(s[0]) || s[0] == '_' then Words(s[1..], current + [s[0]])
    else (if current == [] then {} else {current}) + Words(s[1..], [])
  }

  /** `STOPWORDS` */
  predicate IsStopword(word: string) {
    word in {
      "a", "an", "the", "this", "that", "these", "those",
      "is", "are", "was", "were", "be", "been", "being",
      "in", "on", "at", "to", "for", "of", "with", "by", "from", "as", "and", "or",
      "it", "its", "should", "could", "would", "may", "might", "can",
      "here", "there", "when", "where", "which", "what", "while", "if", "then", "than"}
  }

  function TitleTokens(title: string): set<string> {
    set word <- Words(JoinHyphens(Lower(title), 0), []) | !IsStopword(word)
  }

  function Jaccard(left: set<string>, right: set<string>): real {
    if left == {} || right == {} then 0.0
    else UnionInhabited(left, right); |left * right| as real / |left + right| as real
  }

  lemma {:induction false} UnionInhabited(left: set<string>, right: set<string>)
    requires left != {}
    ensures |left + right| > 0
  {
    var x :| x in left;
    assert x in left + right;
  }

  lemma {:induction false} JaccardSymmetric(left: set<string>, right: set<string>)
    ensures Jaccard(left, right) == Jaccard(right, left)
  {
    assert left * right == right * left;
    assert left + right == right + left;
  }

  // ---------------------------------------------------------------- numbers

  function Digit(d: nat): char
    requires d < 10
  {
    ('0' as int + d) as char
  }

  function Decimal(n: nat): string {
    if n < 10 then [Digit(n)] else Decimal(n / 10) + [Digit(n % 10)]
  }

  /** The number a run of digits spells. */
  function Spelled(s: string): int {
    if s == [] then 0 else Spelled(s[..|s| - 1]) * 10 + (s[|s| - 1] as int - '0' as int)
  }

  lemma {:induction false} DecimalSpelled(n: nat)
    ensures Spelled(Decimal(n)) == n
    ensures forall c <- Decimal(n) :: '0' <= c <= '9'
  {
    if n < 10 {
      assert Decimal(n)[..0] == [];
    } else {
      DecimalSpelled(n / 10);
      assert Decimal(n)[..|Decimal(n)| - 1] == Decimal(n / 10);
    }
  }
}
