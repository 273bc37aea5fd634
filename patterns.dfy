/**
 * The fragment of Python's `re` that the heading and title rules use: a pattern
 * anchored at the start of the string (`re.match`, or `re.search` with `^`) made
 * of single characters of a class and `+`-repeated classes.
 *
 * `Matches` is the regular-expression meaning (a `+` may take any number of
 * characters and the matcher backtracks); `Greedy` is the deterministic matcher
 * the model computes with. `GreedyIsMatches` shows the two agree whenever a
 * repeated class is never followed by a class it overlaps, which holds for every
 * pattern in the code.
 */
module Patterns {
  import opened Text

  datatype Atom =
    | One(cls: CharClass)    // exactly one character of the class
    | Many(cls: CharClass)   // one or more characters of the class

  type Pattern = seq<Atom>

  predicate AllIn(s: string, cls: CharClass) {
    forall k :: 0 <= k < |s| ==> InClass(s[k], cls)
  }

  /** `re.match(p, s)` succeeds: some prefix of `s` matches `p`. */
  ghost predicate Matches(p: Pattern, s: string)
    decreases |p|
  {
    if p == [] then true
    else match p[0]
      case One(cls) => s != [] && InClass(s[0], cls) && Matches(p[1..], s[1..])
      case Many(cls) =>
        exists k :: 1 <= k <= |s| && AllIn(s[..k], cls) && Matches(p[1..], s[k..])
  }

  /** The matcher without backtracking: each `+` takes the longest run it can. */
  predicate Greedy(p: Pattern, s: string)
    decreases |p|
  {
    if p == [] then true
    else match p[0]
      case One(cls) => s != [] && InClass(s[0], cls) && Greedy(p[1..], s[1..])
      case Many(cls) =>
        var k := RunLength(s, cls);
        k >= 1 && Greedy(p[1..], s[k..])
  }

  /** No character belongs to both classes (a sound, partial test). */
  predicate Disjoint(a: CharClass, b: CharClass) {
    match (a, b)
    case (Digit, Space) => true
    case (Space, Digit) => true
    case (Word, Space) => true
    case (Space, Word) => true
    case (NonSpace, Space) => true
    case (Space, NonSpace) => true
    case (Digit, Is(c)) => !IsDigit(c)
    case (Is(c), Digit) => !IsDigit(c)
    case (Space, Is(c)) => !IsSpace(c)
    case (Is(c), Space) => !IsSpace(c)
    case (Is(c), Is(d)) => c != d
    case _ => false
  }

  lemma DisjointSound(a: CharClass, b: CharClass, c: char)
    requires Disjoint(a, b)
    ensures !(InClass(c, a) && InClass(c, b))
  {
  }

  /** Every `+`-repeated class is followed by a class it does not overlap. */
  predicate Separated(p: Pattern) {
    forall i :: 0 <= i < |p| - 1 && p[i].Many? ==> Disjoint(p[i].cls, p[i + 1].cls)
  }

  /** A non-empty pattern only matches a string whose first character is in the
      pattern's first class. */
  lemma MatchesHead(p: Pattern, s: string)
    requires p != [] && Matches(p, s)
    ensures s != [] && InClass(s[0], p[0].cls)
  {
    if p[0].Many? {
      var k :| 1 <= k <= |s| && AllIn(s[..k], p[0].cls) && Matches(p[1..], s[k..]);
      assert s[..k][0] == s[0];
    }
  }

  lemma SeparatedTail(p: Pattern)
    requires p != [] && Separated(p)
    ensures Separated(p[1..])
  {
    forall i | 0 <= i < |p[1..]| - 1 && p[1..][i].Many?
      ensures Disjoint(p[1..][i].cls, p[1..][i + 1].cls)
    {
      assert p[1..][i] == p[i + 1] && p[1..][i + 1] == p[i + 2];
    }
  }

  /** When a `+` is followed by a class it does not overlap, the only way to go on
      matching is to take the longest run. */
  lemma RepeatTakesLongestRun(cls: CharClass, rest: Pattern, s: string, k: nat)
    requires 1 <= k <= |s| && AllIn(s[..k], cls) && Matches(rest, s[k..])
    requires rest != [] ==> Disjoint(cls, rest[0].cls)
    ensures k <= RunLength(s, cls)
    ensures rest != [] ==> k == RunLength(s, cls)
  {
    if rest != [] {
      MatchesHead(rest, s[k..]);
      assert s[k..][0] == s[k];
      DisjointSound(cls, rest[0].cls, s[k]);
    }
  }

  /** The greedy matcher accepts exactly the strings the regular expression matches. */
  lemma {:induction false} GreedyIsMatches(p: Pattern, s: string)
    requires Separated(p)
    ensures Greedy(p, s) <==> Matches(p, s)
    decreases |p|
  {
    if p != [] {
      SeparatedTail(p);
      match p[0]
      case One(cls) =>
        if s != [] { GreedyIsMatches(p[1..], s[1..]); }
      case Many(cls) =>
        var n := RunLength(s, cls);
        GreedyIsMatches(p[1..], s[n..]);
        if Greedy(p, s) {
          assert AllIn(s[..n], cls);
        }
        if Matches(p, s) {
          var k :| 1 <= k <= |s| && AllIn(s[..k], cls) && Matches(p[1..], s[k..]);
          RepeatTakesLongestRun(cls, p[1..], s, k);
          if p[1..] == [] {
            assert s[..k][0] == s[0];
          }
        }
    }
  }

  /** The atoms matching the literal string `w`. */
  function Literal(w: string): Pattern {
    seq(|w|, i requires 0 <= i < |w| => One(Is(w[i])))
  }

  /** A literal matches exactly the strings that start with it. */
  lemma {:induction false} LiteralMatches(w: string, s: string)
    ensures Matches(Literal(w), s) <==> |w| <= |s| && s[..|w|] == w
  {
    if w != [] {
      assert Literal(w)[1..] == Literal(w[1..]);
      if s != [] {
        LiteralMatches(w[1..], s[1..]);
        if |w| <= |s| {
          assert s[..|w|] == [s[0]] + s[1..][..|w| - 1];
          assert w == [w[0]] + w[1..];
        }
      }
    }
  }
}
