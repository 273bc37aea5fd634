/**
 * Character classes and string operations that the Python code takes from `str`
 * and `re`: `isspace`, `\d`, `\w`, `lower`, `strip`, `split`, `startswith`,
 * `endswith`, `in` on strings and `join`.
 *
 * Everything is restricted to ASCII: the whitespace class is the set of ASCII
 * characters for which Python's `str.isspace()` is true, digits are `0`-`9`,
 * word characters are ASCII letters, digits and `_`, and lowering maps only
 * `A`-`Z`.
 */
module Text {

  /** The character classes the code tests characters against. */
  datatype CharClass =
    | Digit      // `\d`
    | Space      // `\s`, and what `strip()` and `split()` remove
    | NonSpace   // what `split()` keeps
    | Word       // `\w`
    | Is(c: char)

  /** Python's `str.isspace()` on ASCII: tab, line feed, vertical tab, form feed,
      carriage return, the four information separators 0x1C-0x1F and space. */
  predicate IsSpace(c: char) {
    var n := c as int;
    (9 <= n <= 13) || (28 <= n <= 32)
  }

  predicate IsDigit(c: char) { '0' <= c <= '9' }

  predicate IsUpper(c: char) { 'A' <= c <= 'Z' }

  predicate IsWordChar(c: char) { 'a' <= c <= 'z' || IsUpper(c) || IsDigit(c) || c == '_' }

  predicate InClass(c: char, cls: CharClass) {
    match cls
    case Digit => IsDigit(c)
    case Space => IsSpace(c)
    case NonSpace => !IsSpace(c)
    case Word => IsWordChar(c)
    case Is(d) => c == d
  }

  function LowerChar(c: char): char {
    if IsUpper(c) then (c as int + 32) as char else c
  }

  /** `str.lower()` on ASCII: no upper-case letter is left, every upper-case
      letter becomes the lower-case letter 32 code points above it, and every
      other character keeps its place. */
  function Lower(s: string): (r: string)
    ensures |r| == |s|
    ensures forall i :: 0 <= i < |r| ==> !IsUpper(r[i])
    ensures forall i :: 0 <= i < |s| && !IsUpper(s[i]) ==> r[i] == s[i]
    ensures forall i :: 0 <= i < |s| && IsUpper(s[i]) ==> 'a' <= r[i] <= 'z' && r[i] as int == s[i] as int + 32
  {
    seq(|s|, i requires 0 <= i < |s| => LowerChar(s[i]))
  }

  /** The length of the longest prefix of `s` whose characters are all in `cls`. */
  function RunLength(s: string, cls: CharClass): (n: nat)
    ensures n <= |s|
    ensures forall k :: 0 <= k < n ==> InClass(s[k], cls)
    ensures n < |s| ==> !InClass(s[n], cls)
  {
    if s != [] && InClass(s[0], cls) then 1 + RunLength(s[1..], cls) else 0
  }

  /** The number of whitespace characters at the end of `s`. */
  function TrailingSpaces(s: string): (n: nat)
    ensures n <= |s|
    ensures forall k :: |s| - n <= k < |s| ==> IsSpace(s[k])
    ensures n < |s| ==> !IsSpace(s[|s| - 1 - n])
  {
    if s != [] && IsSpace(s[|s| - 1]) then 1 + TrailingSpaces(s[..|s| - 1]) else 0
  }

  /** `str.lstrip()` */
  function TrimStart(s: string): string {
    if s != [] && IsSpace(s[0]) then TrimStart(s[1..]) else s
  }

  /** `str.rstrip()` */
  function TrimEnd(s: string): string {
    if s != [] && IsSpace(s[|s| - 1]) then TrimEnd(s[..|s| - 1]) else s
  }

  /** `str.strip()` */
  function Strip(s: string): string {
    TrimEnd(TrimStart(s))
  }

  lemma {:induction false} TrimStartCuts(s: string)
    ensures TrimStart(s) == s[RunLength(s, Space)..]
  {
    if s != [] && IsSpace(s[0]) {
      TrimStartCuts(s[1..]);
      assert s[1..][RunLength(s[1..], Space)..] == s[RunLength(s, Space)..];
    }
  }

  lemma {:induction false} TrimEndCuts(s: string)
    ensures TrimEnd(s) == s[..|s| - TrailingSpaces(s)]
  {
    if s != [] && IsSpace(s[|s| - 1]) {
      var init := s[..|s| - 1];
      TrimEndCuts(init);
      assert init[..|init| - TrailingSpaces(init)] == s[..|s| - TrailingSpaces(s)];
    }
  }

  /** `r` is `s[i..j]` and only whitespace lies outside it. */
  predicate SpaceCut(s: string, r: string, i: int, j: int) {
    && 0 <= i <= j <= |s| && r == s[i..j]
    && (forall k :: 0 <= k < i ==> IsSpace(s[k]))
    && (forall k :: j <= k < |s| ==> IsSpace(s[k]))
  }

  /** What `strip()` returns is a slice of `s` with only whitespace cut off on
      either side. */
  lemma StripTrims(s: string)
    ensures exists i, j :: SpaceCut(s, Strip(s), i, j)
  {
    var i := RunLength(s, Space);
    var t := s[i..];
    TrimStartCuts(s);
    TrimEndCuts(t);
    var n := TrailingSpaces(t);
    var j := i + |t| - n;
    assert t[..|t| - n] == s[i..j];
    forall k | j <= k < |s| ensures IsSpace(s[k]) {
      assert s[k] == t[k - i];
    }
    assert SpaceCut(s, Strip(s), i, j);
  }

  /** What `strip()` returns neither starts nor ends with whitespace. */
  lemma StripEnds(s: string)
    ensures Strip(s) == [] || (!IsSpace(Strip(s)[0]) && !IsSpace(Strip(s)[|Strip(s)| - 1]))
  {
    var i := RunLength(s, Space);
    var t := s[i..];
    TrimStartCuts(s);
    TrimEndCuts(t);
    var n := TrailingSpaces(t);
    var r := Strip(s);
    if r != [] {
      assert r[0] == s[i];
      assert r[|r| - 1] == t[|t| - 1 - n];
    }
  }

  /** `s.startswith(p)` */
  predicate StartsWith(s: string, p: string) {
    |p| <= |s| && s[..|p|] == p
  }

  /** `s.endswith(p)` */
  predicate EndsWith(s: string, p: string) {
    |p| <= |s| && s[|s| - |p|..] == p
  }

  /** `s.startswith(tuple(ps))` */
  predicate StartsWithAny(s: string, ps: seq<string>) {
    exists p :: p in ps && StartsWith(s, p)
  }

  /** `p in s` for strings: `p` occurs in `s` as a contiguous substring. */
  predicate Contains(s: string, p: string)
    decreases |s|
  {
    StartsWith(s, p) || (s != [] && Contains(s[1..], p))
  }

  /** `p` is the slice of `s` at position `i`. */
  predicate OccursAt(s: string, p: string, i: int) {
    0 <= i && i + |p| <= |s| && s[i..i + |p|] == p
  }

  /** `p` occurs in `s` exactly when it is the slice of `s` at some position. */
  lemma {:induction false} ContainsMeaning(s: string, p: string)
    ensures Contains(s, p) <==> exists i :: OccursAt(s, p, i)
    decreases |s|
  {
    if s != [] {
      ContainsMeaning(s[1..], p);
      if Contains(s[1..], p) {
        var i :| OccursAt(s[1..], p, i);
        assert s[i + 1..i + 1 + |p|] == s[1..][i..i + |p|];
        assert OccursAt(s, p, i + 1);
      }
      if !StartsWith(s, p) {
        forall i | OccursAt(s, p, i) ensures Contains(s[1..], p) {
          assert i != 0;
          assert s[1..][i - 1..i - 1 + |p|] == s[i..i + |p|];
          assert OccursAt(s[1..], p, i - 1);
        }
      } else {
        assert OccursAt(s, p, 0);
      }
    } else {
      if Contains(s, p) {
        assert OccursAt(s, p, 0);
      }
      if exists i :: OccursAt(s, p, i) {
        var i :| OccursAt(s, p, i);
        assert p == [];
        assert StartsWith(s, p);
      }
    }
  }

  /** A string never contains a longer one. */
  lemma LongerNeverContained(s: string, p: string)
    requires |s| < |p|
    ensures !Contains(s, p)
  {
    ContainsMeaning(s, p);
  }

  /** `sep.join(parts)` */
  function Join(parts: seq<string>, sep: string): string {
    if parts == [] then ""
    else if |parts| == 1 then parts[0]
    else parts[0] + sep + Join(parts[1..], sep)
  }

  /** `s.replace(a, b)` for single characters: no `a` is left when `b` differs,
      each `a` becomes `b` in its place and every other character is kept. */
  function ReplaceChar(s: string, a: char, b: char): (r: string)
    ensures |r| == |s|
    ensures a != b ==> forall i :: 0 <= i < |r| ==> r[i] != a
    ensures forall i :: 0 <= i < |s| && s[i] == a ==> r[i] == b
    ensures forall i :: 0 <= i < |s| && s[i] != a ==> r[i] == s[i]
  {
    seq(|s|, i requires 0 <= i < |s| => if s[i] == a then b else s[i])
  }

  /** The end of the run of `cls` characters of `s` that starts at `i`. */
  function RunEnd(s: string, i: nat, cls: CharClass): (e: nat)
    requires i <= |s|
    ensures i <= e <= |s|
    ensures forall c :: i <= c < e ==> InClass(s[c], cls)
    ensures e < |s| ==> !InClass(s[e], cls)
    ensures i < |s| && InClass(s[i], cls) ==> i < e
    decreases |s| - i
  {
    if i < |s| && InClass(s[i], cls) then RunEnd(s, i + 1, cls) else i
  }

  /** The maximal runs of `cls` characters of `s[i..]`, in order. */
  function RunsFrom(s: string, i: nat, cls: CharClass): seq<string>
    requires i <= |s|
    decreases |s| - i
  {
    if i == |s| then []
    else if !InClass(s[i], cls) then RunsFrom(s, i + 1, cls)
    else
      var e := RunEnd(s, i, cls);
      [s[i..e]] + RunsFrom(s, e, cls)
  }

  /** The maximal runs of characters of class `cls`, in order: `re.findall(r'\w+', s)`
      for `Word`, `s.split()` for `NonSpace`. */
  function Runs(s: string, cls: CharClass): seq<string> {
    RunsFrom(s, 0, cls)
  }

  /** `s[i..j]` is a run of `cls` characters that cannot be extended on either side. */
  ghost predicate IsMaximalRun(s: string, i: int, j: int, cls: CharClass) {
    && 0 <= i < j <= |s|
    && (forall k :: i <= k < j ==> InClass(s[k], cls))
    && (i == 0 || !InClass(s[i - 1], cls))
    && (j == |s| || !InClass(s[j], cls))
  }

  /** Every element of `RunsFrom(s, d, cls)` is a maximal run of `s`, when `d`
      does not cut a run in two. */
  lemma {:induction false} RunsFromSound(s: string, d: nat, cls: CharClass, w: string)
    requires d <= |s| && (d == 0 || d == |s| || !InClass(s[d - 1], cls) || !InClass(s[d], cls))
    requires w in RunsFrom(s, d, cls)
    ensures exists i, j :: IsMaximalRun(s, i, j, cls) && s[i..j] == w
    decreases |s| - d
  {
    if !InClass(s[d], cls) {
      RunsFromSound(s, d + 1, cls, w);
    } else {
      var e := RunEnd(s, d, cls);
      if w == s[d..e] {
        assert IsMaximalRun(s, d, e, cls);
      } else {
        RunsFromSound(s, e, cls, w);
      }
    }
  }

  /** Every element of `Runs(s, cls)` is a maximal run of `s`. */
  lemma RunsSound(s: string, cls: CharClass, w: string)
    requires w in Runs(s, cls)
    ensures exists i, j :: IsMaximalRun(s, i, j, cls) && s[i..j] == w
  {
    RunsFromSound(s, 0, cls, w);
  }

  /** Every maximal run of `s` starting at or after `d` is an element of
      `RunsFrom(s, d, cls)`. */
  lemma {:induction false} RunsFromComplete(s: string, d: nat, cls: CharClass, i: int, j: int)
    requires d <= i && IsMaximalRun(s, i, j, cls)
    ensures s[i..j] in RunsFrom(s, d, cls)
    decreases |s| - d
  {
    if !InClass(s[d], cls) {
      RunsFromComplete(s, d + 1, cls, i, j);
    } else {
      var e := RunEnd(s, d, cls);
      if d < i {
        assert e <= i - 1;
        RunsFromComplete(s, e, cls, i, j);
      } else {
        assert e == j;
      }
    }
  }

  /** Every maximal run of `s` is an element of `Runs(s, cls)`. */
  lemma RunsComplete(s: string, cls: CharClass, i: int, j: int)
    requires IsMaximalRun(s, i, j, cls)
    ensures s[i..j] in Runs(s, cls)
  {
    RunsFromComplete(s, 0, cls, i, j);
  }
}
