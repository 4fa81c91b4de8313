/** The fragment of JavaScript regular expressions the validators use, as a
    small syntax tree with a matching relation.

    `Matches(re, s, i, j)` says that `re` can match exactly `s[i..j]`. Because
    it quantifies over every way of splitting the text, greedy `*` and lazy
    `*?` are the same here: they differ only in WHICH match a backtracking
    engine reports first, never in WHETHER one exists, and `RegExp.test` only
    reports existence. `Finds` is `test` for an unanchored pattern and
    `FullMatch` is `test` for a pattern wrapped in `^...$`.

    Literals compare with ASCII case folding: every literal-bearing pattern
    in scope carries the `i` flag, and without the `u` flag JavaScript never
    folds a non-ASCII character onto an ASCII one. */
module Regex {
  import opened Text

  /** The character classes that occur in the source patterns. */
  datatype CharClass =
    | AnyChar                   // [\s\S]
    | NotLineTerminator         // .
    | Space                     // \s
    | Digit                     // \d
    | AsciiLetter               // [a-zA-Z]
    | LowerAlnum                // [a-z0-9]
    | LowerAlnumDotDash         // [a-z0-9.-]
    | LowerAlnumDash            // [a-z0-9-]
    | NoneOf(excluded: string)  // [^...]

  predicate InClass(cls: CharClass, c: char) {
    match cls
    case AnyChar => true
    case NotLineTerminator => !IsLineTerminator(c)
    case Space => IsSpace(c)
    case Digit => IsDigit(c)
    case AsciiLetter => IsAsciiLetter(c)
    case LowerAlnum => 'a' <= c <= 'z' || IsDigit(c)
    case LowerAlnumDotDash => 'a' <= c <= 'z' || IsDigit(c) || c == '.' || c == '-'
    case LowerAlnumDash => 'a' <= c <= 'z' || IsDigit(c) || c == '-'
    case NoneOf(excluded) => c !in excluded
  }

  datatype Re =
    | Empty
    | Lit(text: string)
    | Class(cls: CharClass)
    | Cat(first: Re, second: Re)
    | Alt(left: Re, right: Re)
    | Star(body: Re)

  /** `r?` */
  function Opt(r: Re): Re { Alt(r, Empty) }

  /** `r+` */
  function Plus(r: Re): Re { Cat(r, Star(r)) }

  /** `.`: any character but a line terminator. */
  const Dot: Re := Class(NotLineTerminator)

  /** `(w1|w2|...)` over literal words. */
  function OneOf(words: seq<string>): Re
    requires |words| > 0
  {
    if |words| == 1 then Lit(words[0]) else Alt(Lit(words[0]), OneOf(words[1..]))
  }

  predicate Matches(re: Re, s: string, i: nat, j: nat)
    decreases re, j - i
  {
    i <= j <= |s| &&
    match re
    case Empty => i == j
    case Lit(t) => j == i + |t| && forall k | 0 <= k < |t| :: Lower(s[i + k]) == Lower(t[k])
    case Class(cls) => j == i + 1 && InClass(cls, s[i])
    case Cat(a, b) => exists k: nat | i <= k <= j :: Matches(a, s, i, k) && Matches(b, s, k, j)
    case Alt(a, b) => Matches(a, s, i, j) || Matches(b, s, i, j)
    case Star(a) =>
      i == j || exists k: nat | i < k <= j :: Matches(a, s, i, k) && Matches(Star(a), s, k, j)
  }

  /** `re.test(s)` for an unanchored pattern. */
  predicate Finds(re: Re, s: string) {
    exists i: nat, j: nat | i <= j <= |s| :: Matches(re, s, i, j)
  }

  /** `re.test(s)` for a pattern anchored with `^` and `$`. */
  predicate FullMatch(re: Re, s: string) {
    Matches(re, s, 0, |s|)
  }

  /** A match survives putting text before and after it. */
  lemma {:induction false} MatchesInContext(re: Re, p: string, s: string, q: string, i: nat, j: nat)
    requires Matches(re, s, i, j)
    ensures Matches(re, p + s + q, |p| + i, |p| + j)
    decreases re, j - i
  {
    var t := p + s + q;
    assert forall k | i <= k < j :: t[|p| + k] == s[k];
    match re
    case Empty =>
    case Lit(w) =>
      forall k | 0 <= k < |w| ensures Lower(t[|p| + i + k]) == Lower(w[k]) {
        assert t[|p| + i + k] == s[i + k];
      }
    case Class(cls) =>
    case Cat(a, b) =>
      var k: nat :| i <= k <= j && Matches(a, s, i, k) && Matches(b, s, k, j);
      MatchesInContext(a, p, s, q, i, k);
      MatchesInContext(b, p, s, q, k, j);
      assert Matches(a, t, |p| + i, |p| + k);
    case Alt(a, b) =>
      if Matches(a, s, i, j) {
        MatchesInContext(a, p, s, q, i, j);
      } else {
        MatchesInContext(b, p, s, q, i, j);
      }
    case Star(a) =>
      if i != j {
        var k: nat :| i < k <= j && Matches(a, s, i, k) && Matches(Star(a), s, k, j);
        MatchesInContext(a, p, s, q, i, k);
        MatchesInContext(Star(a), p, s, q, k, j);
        assert Matches(a, t, |p| + i, |p| + k);
      }
  }

  /** An unanchored pattern found in `s` is found in any text containing `s`. */
  lemma FindsInContext(re: Re, p: string, s: string, q: string)
    requires Finds(re, s)
    ensures Finds(re, p + s + q)
  {
    var i: nat, j: nat :| i <= j <= |s| && Matches(re, s, i, j);
    MatchesInContext(re, p, s, q, i, j);
  }

  /** `c*` for a character class matches exactly the runs of class members. */
  lemma {:induction false} StarClassMatches(cls: CharClass, s: string, i: nat, j: nat)
    requires i <= j <= |s|
    ensures Matches(Star(Class(cls)), s, i, j) <==> forall k | i <= k < j :: InClass(cls, s[k])
    decreases j - i
  {
    if i < j {
      StarClassMatches(cls, s, i + 1, j);
      if Matches(Star(Class(cls)), s, i, j) {
        assert Matches(Star(Class(cls)), s, i, j);
        var k: nat :| i < k <= j && Matches(Class(cls), s, i, k) && Matches(Star(Class(cls)), s, k, j);
        assert k == i + 1;
      }
      if forall k | i <= k < j :: InClass(cls, s[k]) {
        assert Matches(Class(cls), s, i, i + 1);
      }
    }
  }

  /** An alternation of words matches exactly where one of the words does. */
  lemma {:induction false} OneOfMatches(words: seq<string>, s: string, i: nat, j: nat)
    requires |words| > 0
    ensures Matches(OneOf(words), s, i, j) <==> exists w | w in words :: Matches(Lit(w), s, i, j)
  {
    if |words| > 1 {
      OneOfMatches(words[1..], s, i, j);
      assert words == [words[0]] + words[1..];
    }
  }

  /** A literal matches itself wherever it sits in a text. */
  lemma LitMatchesItself(p: string, w: string, q: string)
    ensures Matches(Lit(w), p + w + q, |p|, |p| + |w|)
  {
    var t := p + w + q;
    forall k | 0 <= k < |w| ensures Lower(t[|p| + k]) == Lower(w[k]) {
      assert t[|p| + k] == w[k];
    }
  }

  /** Where a literal matches, its non-letter characters are present verbatim. */
  lemma LitPinsNonLetters(w: string, s: string, i: nat, j: nat, m: nat)
    requires Matches(Lit(w), s, i, j)
    requires m < |w| && !IsAsciiLetter(w[m])
    ensures s[i + m] == w[m]
  {
    assert Lower(s[i + m]) == Lower(w[m]);
  }

  /** A pattern that starts with a literal can only be found in a text that
      holds each non-letter character of that literal. */
  lemma LeadingLiteralNeedsChar(w: string, rest: Re, s: string, m: nat)
    requires m < |w| && !IsAsciiLetter(w[m])
    ensures Finds(Cat(Lit(w), rest), s) ==> w[m] in s
  {
    if Finds(Cat(Lit(w), rest), s) {
      var i: nat, j: nat :| i <= j <= |s| && Matches(Cat(Lit(w), rest), s, i, j);
      assert Matches(Cat(Lit(w), rest), s, i, j);
      var k: nat :| i <= k <= j && Matches(Lit(w), s, i, k) && Matches(rest, s, k, j);
      LitPinsNonLetters(w, s, i, k, m);
    }
  }

  /** Dropping the first characters of a leading literal only widens a
      pattern: whatever `(x + y) rest` finds, `y rest` finds too. */
  lemma DropLiteralPrefix(x: string, y: string, rest: Re, s: string)
    requires Finds(Cat(Lit(x + y), rest), s)
    ensures Finds(Cat(Lit(y), rest), s)
  {
    var i: nat, j: nat :| i <= j <= |s| && Matches(Cat(Lit(x + y), rest), s, i, j);
    assert Matches(Cat(Lit(x + y), rest), s, i, j);
    var k: nat :| i <= k <= j && Matches(Lit(x + y), s, i, k) && Matches(rest, s, k, j);
    forall m | 0 <= m < |y| ensures Lower(s[i + |x| + m]) == Lower(y[m]) {
      assert (x + y)[|x| + m] == y[m];
    }
    assert Matches(Lit(y), s, i + |x|, k);
    assert Matches(Cat(Lit(y), rest), s, i + |x|, j);
  }

  /** Full matches of the two halves make a full match of their concatenation. */
  lemma CatFull(a: Re, b: Re, x: string, y: string)
    requires FullMatch(a, x) && FullMatch(b, y)
    ensures FullMatch(Cat(a, b), x + y)
  {
    MatchesInContext(a, "", x, y, 0, |x|);
    MatchesInContext(b, x, y, "", 0, |y|);
    assert "" + x + y == x + y + "" == x + y;
    assert Matches(a, x + y, 0, |x|) && Matches(b, x + y, |x|, |x| + |y|);
  }

  /** A literal fully matches itself. */
  lemma LitFull(w: string)
    ensures FullMatch(Lit(w), w)
  {
    LitMatchesItself("", w, "");
    assert "" + w + "" == w;
  }

  /** `r?` fully matches what `r` does, and the empty text. */
  lemma OptFull(r: Re, x: string)
    requires FullMatch(r, x) || x == ""
    ensures FullMatch(Opt(r), x)
  {
  }

  /** `c*` fully matches a run of class members. */
  lemma StarClassFull(cls: CharClass, x: string)
    requires forall k | 0 <= k < |x| :: InClass(cls, x[k])
    ensures FullMatch(Star(Class(cls)), x)
  {
    StarClassMatches(cls, x, 0, |x|);
  }

  /** `c+` fully matches a non-empty run of class members. */
  lemma PlusClassFull(cls: CharClass, x: string)
    requires |x| > 0 && forall k | 0 <= k < |x| :: InClass(cls, x[k])
    ensures FullMatch(Plus(Class(cls)), x)
  {
    assert FullMatch(Class(cls), x[..1]);
    StarClassFull(cls, x[1..]);
    CatFull(Class(cls), Star(Class(cls)), x[..1], x[1..]);
    assert x[..1] + x[1..] == x;
  }

  /** A full match is found in any text around it. */
  lemma FullFound(re: Re, p: string, x: string, q: string)
    requires FullMatch(re, x)
    ensures Finds(re, p + x + q)
  {
    MatchesInContext(re, p, x, q, 0, |x|);
  }
}
