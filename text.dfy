/** String helpers shared by the scanners: Python's whitespace classes, the strip family,
    prefix/suffix/substring tests and Python's code-point string ordering. */
module Text {

  /** The characters Python's `str.isspace()` accepts; `strip()`, `lstrip()` and `rstrip()`
      without an argument remove exactly these, and so does the regex class `\s`. */
  const PySpaces: seq<char> := [' ', '\t', '\n', '\U{0b}', '\U{0c}', '\r', '\U{1c}', '\U{1d}', '\U{1e}', '\U{1f}',
    '\U{85}', '\U{a0}', '\U{1680}', '\U{2000}', '\U{2001}', '\U{2002}', '\U{2003}', '\U{2004}', '\U{2005}',
    '\U{2006}', '\U{2007}', '\U{2008}', '\U{2009}', '\U{200a}', '\U{2028}', '\U{2029}', '\U{202f}',
    '\U{205f}', '\U{3000}']

  predicate IsPySpace(c: char) {
    SpaceFrom(c, 0)
  }

  /** `c` is one of `PySpaces[k..]` (a list walk, so that the verifier looks at the list only
      as far as a proof needs). */
  predicate SpaceFrom(c: char, k: nat)
    decreases |PySpaces| - k
  {
    k < |PySpaces| && (PySpaces[k] == c || SpaceFrom(c, k + 1))
  }

  /** The two characters `rstrip("\r\n")` removes. */
  predicate IsLineBreak(c: char) {
    c == '\r' || c == '\n'
  }

  /** Every character of `s[lo..hi]` satisfies `p`. */
  predicate AllSatisfy(s: string, lo: int, hi: int, p: char -> bool) {
    forall k :: lo <= k < hi && 0 <= k < |s| ==> p(s[k])
  }

  /** `s.rstrip(chars)`: `s` without its trailing run of characters satisfying `drop`. */
  function TrimRight(s: string, drop: char -> bool): (r: string)
    ensures |r| <= |s|
    ensures r == [] || !drop(r[|r| - 1])
  {
    if s == [] || !drop(s[|s| - 1]) then s else TrimRight(s[..|s| - 1], drop)
  }

  /** What `TrimRight` removed is a run of `drop` characters at the end: the result is a
      prefix of `s`, and together with the last-character fact above it is the longest one. */
  lemma {:induction false} TrimRightRemovesTail(s: string, drop: char -> bool)
    ensures s[..|TrimRight(s, drop)|] == TrimRight(s, drop)
    ensures AllSatisfy(s, |TrimRight(s, drop)|, |s|, drop)
  {
    if s != [] && drop(s[|s| - 1]) {
      var t := s[..|s| - 1];
      TrimRightRemovesTail(t, drop);
      assert t[..|TrimRight(t, drop)|] == s[..|TrimRight(t, drop)|];
    }
  }

  /** `s.lstrip(chars)`: `s` without its leading run of characters satisfying `drop`. */
  function TrimLeft(s: string, drop: char -> bool): (r: string)
    ensures |r| <= |s|
    ensures r == [] || !drop(r[0])
  {
    if s == [] || !drop(s[0]) then s else TrimLeft(s[1..], drop)
  }

  /** What `TrimLeft` removed is a run of `drop` characters at the start: the result is a
      suffix of `s`. */
  lemma {:induction false} TrimLeftRemovesHead(s: string, drop: char -> bool)
    ensures s[|s| - |TrimLeft(s, drop)|..] == TrimLeft(s, drop)
    ensures AllSatisfy(s, 0, |s| - |TrimLeft(s, drop)|, drop)
  {
    if s != [] && drop(s[0]) {
      var t := s[1..];
      TrimLeftRemovesHead(t, drop);
      assert t[|t| - |TrimLeft(t, drop)|..] == s[|s| - |TrimLeft(t, drop)|..];
      assert forall k :: 1 <= k < |s| ==> s[k] == t[k - 1];
    }
  }

  function RStrip(s: string): string { TrimRight(s, IsPySpace) }
  function LStrip(s: string): string { TrimLeft(s, IsPySpace) }
  function Strip(s: string): string { RStrip(LStrip(s)) }
  function RStripNewline(s: string): string { TrimRight(s, IsLineBreak) }

  predicate StartsWith(s: string, p: string) {
    |p| <= |s| && s[..|p|] == p
  }

  predicate EndsWith(s: string, p: string) {
    |p| <= |s| && s[|s| - |p|..] == p
  }

  /** `t` occurs in `s` at index `i`. */
  predicate OccursAt(s: string, t: string, i: int) {
    0 <= i <= |s| - |t| && s[i..i + |t|] == t
  }

  /** Python's `t in s` for strings: `t` occurs in `s` at some index. */
  predicate Contains(s: string, t: string) {
    exists i :: 0 <= i <= |s| - |t| && OccursAt(s, t, i)
  }

  /** `s.replace(" ", "")`. */
  function RemoveSpaces(s: string): (r: string)
    ensures forall k :: 0 <= k < |r| ==> r[k] != ' '
    ensures |r| <= |s|
    ensures multiset(r) == multiset(s)[' ' := 0]
  {
    if s == [] then []
    else
      assert s == [s[0]] + s[1..];
      (if s[0] == ' ' then [] else [s[0]]) + RemoveSpaces(s[1..])
  }

  /** Removing spaces works piece by piece: the kept characters stay in their order. */
  lemma {:induction false} RemoveSpacesConcat(a: string, b: string)
    ensures RemoveSpaces(a + b) == RemoveSpaces(a) + RemoveSpaces(b)
  {
    if a == [] {
      assert a + b == b;
    } else {
      var head := if a[0] == ' ' then [] else [a[0]];
      assert (a + b)[0] == a[0] && (a + b)[1..] == a[1..] + b;
      RemoveSpacesConcat(a[1..], b);
      assert RemoveSpaces(a + b) == head + (RemoveSpaces(a[1..]) + RemoveSpaces(b));
    }
  }

  /** A text without spaces is left as it is. */
  lemma {:induction false} RemoveSpacesNone(s: string)
    requires forall k :: 0 <= k < |s| ==> s[k] != ' '
    ensures RemoveSpaces(s) == s
  {
    if s != [] {
      RemoveSpacesNone(s[1..]);
    }
  }

  /** Python's `<` on strings: lexicographic by code point. */
  predicate StrLess(a: string, b: string) {
    if a == [] then b != []
    else if b == [] then false
    else a[0] < b[0] || (a[0] == b[0] && StrLess(a[1..], b[1..]))
  }

  lemma {:induction false} StrLessIrreflexive(a: string)
    ensures !StrLess(a, a)
  {
    if a != [] { StrLessIrreflexive(a[1..]); }
  }

  lemma {:induction false} StrLessTransitive(a: string, b: string, c: string)
    requires StrLess(a, b) && StrLess(b, c)
    ensures StrLess(a, c)
  {
    if a != [] && b != [] && c != [] && a[0] == b[0] == c[0] {
      StrLessTransitive(a[1..], b[1..], c[1..]);
    }
  }

  lemma {:induction false} StrLessTotal(a: string, b: string)
    ensures a == b || StrLess(a, b) || StrLess(b, a)
  {
    if a != [] && b != [] && a[0] == b[0] {
      StrLessTotal(a[1..], b[1..]);
      if a[1..] == b[1..] {
        assert a == [a[0]] + a[1..] && b == [b[0]] + b[1..];
      }
    }
  }

  /** The set of elements of a sequence. */
  function Elems<T>(xs: seq<T>): set<T> {
    set x | x in xs
  }

  predicate StrictlySorted(xs: seq<string>) {
    forall i, j :: 0 <= i < j < |xs| ==> StrLess(xs[i], xs[j])
  }

  /** Inserts `x` into an ascending sequence before the first element not below it, unless
      it is already there. */
  function Insert(x: string, xs: seq<string>): (r: seq<string>)
    ensures Elems(r) == Elems(xs) + {x}
  {
    if xs == [] then [x]
    else if x == xs[0] then
      assert xs == [xs[0]] + xs[1..];
      xs
    else if StrLess(x, xs[0]) then
      assert Elems([x] + xs) == {x} + Elems(xs);
      [x] + xs
    else
      assert Elems(xs) == {xs[0]} + Elems(xs[1..]) by {
        assert xs == [xs[0]] + xs[1..];
      }
      assert Elems([xs[0]] + Insert(x, xs[1..])) == {xs[0]} + Elems(Insert(x, xs[1..]));
      [xs[0]] + Insert(x, xs[1..])
  }

  /** Everything in a strictly sorted sequence after its head is above the head. */
  lemma SortedHeadBelowRest(xs: seq<string>, s: string)
    requires StrictlySorted(xs) && xs != []
    requires s in Elems(xs[1..])
    ensures StrLess(xs[0], s)
  {
    var j :| 0 <= j < |xs[1..]| && xs[1..][j] == s;
    assert xs[j + 1] == s;
  }

  /** A sequence whose head is below everything after it, and whose tail is strictly sorted,
      is strictly sorted. */
  lemma SortedCons(y: string, ys: seq<string>)
    requires StrictlySorted(ys)
    requires forall s :: s in Elems(ys) ==> StrLess(y, s)
    ensures StrictlySorted([y] + ys)
  {
    var zs := [y] + ys;
    forall i, j | 0 <= i < j < |zs| ensures StrLess(zs[i], zs[j]) {
      if i == 0 {
        assert zs[j] == ys[j - 1] && ys[j - 1] in Elems(ys);
      } else {
        assert zs[i] == ys[i - 1] && zs[j] == ys[j - 1];
      }
    }
  }

  /** `Insert` keeps a sequence strictly sorted. */
  lemma {:induction false} InsertSorted(x: string, xs: seq<string>)
    requires StrictlySorted(xs)
    ensures StrictlySorted(Insert(x, xs))
    decreases |xs|
  {
    if xs == [] || x == xs[0] {
    } else if StrLess(x, xs[0]) {
      forall s | s in Elems(xs) ensures StrLess(x, s) {
        if s != xs[0] {
          assert xs == [xs[0]] + xs[1..];
          SortedHeadBelowRest(xs, s);
          StrLessTransitive(x, xs[0], s);
        }
      }
      SortedCons(x, xs);
    } else {
      StrLessTotal(x, xs[0]);
      var rest := Insert(x, xs[1..]);
      assert StrictlySorted(xs[1..]) by {
        forall i, j | 0 <= i < j < |xs[1..]| ensures StrLess(xs[1..][i], xs[1..][j]) {
          assert xs[1..][i] == xs[i + 1] && xs[1..][j] == xs[j + 1];
        }
      }
      InsertSorted(x, xs[1..]);
      forall s | s in Elems(rest) ensures StrLess(xs[0], s) {
        if s != x {
          SortedHeadBelowRest(xs, s);
        }
      }
      SortedCons(xs[0], rest);
    }
  }

  /** Python's `sorted(set(xs))`: the distinct elements of `xs` in ascending order. */
  function SortedUnique(xs: seq<string>): (r: seq<string>)
    ensures StrictlySorted(r)
    ensures Elems(r) == Elems(xs)
  {
    if xs == [] then []
    else
      assert Elems(xs) == Elems(xs[..|xs| - 1]) + {xs[|xs| - 1]} by {
        assert xs == xs[..|xs| - 1] + [xs[|xs| - 1]];
      }
      InsertSorted(xs[|xs| - 1], SortedUnique(xs[..|xs| - 1]));
      Insert(xs[|xs| - 1], SortedUnique(xs[..|xs| - 1]))
  }

  /** The number a string of decimal digits spells. */
  function DigitsValue(s: string): nat
    requires forall k :: 0 <= k < |s| ==> '0' <= s[k] <= '9'
  {
    if s == [] then 0 else DigitsValue(s[..|s| - 1]) * 10 + (s[|s| - 1] - '0') as nat
  }

  /** Decimal rendering of a natural number, as Python's `str(n)`: digits spelling `n`, with
      no leading zero except in `"0"` itself. */
  function NatToString(n: nat): (r: string)
    ensures |r| >= 1
    ensures forall k :: 0 <= k < |r| ==> '0' <= r[k] <= '9'
    ensures DigitsValue(r) == n
    ensures r[0] == '0' ==> r == "0"
  {
    var d := ['0' + (n % 10) as char];
    if n < 10 then d
    else
      var front := NatToString(n / 10);
      assert (front + d)[..|front + d| - 1] == front;
      front + d
  }
}
