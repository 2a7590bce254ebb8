/** The regular expressions the kconfig database builder applies to source lines, written
    out as left-to-right scanners over the line's characters:
    - `RE_CONFIG`, a `CONFIG_` name standing as a whole word;
    - `RE_DEFINED`, the name inside `defined ( ... )`;
    - `RE_MACROS`, one of the four `IS_*` helper macros with its argument text;
    - `RE_PREPROC`, a conditional preprocessor directive line.
    Word characters (what `\b` looks at) are the ASCII letters, digits and `_`. */
module ConfigScan {
  import opened Wrappers
  import opened Text

  predicate IsWordChar(c: char) {
    ('a' <= c <= 'z') || ('A' <= c <= 'Z') || ('0' <= c <= '9') || c == '_'
  }

  /** `[A-Z0-9_]`: the characters a configuration name is made of. */
  predicate IsNameChar(c: char) {
    ('A' <= c <= 'Z') || ('0' <= c <= '9') || c == '_'
  }

  const ConfigPrefix: string := "CONFIG_"

  /** What `RE_CONFIG` can match: `CONFIG_` followed by at least one name character. */
  predicate IsConfigName(x: string) {
    |x| > |ConfigPrefix| && StartsWith(x, ConfigPrefix)
    && forall k :: |ConfigPrefix| <= k < |x| ==> IsNameChar(x[k])
  }

  /** No whitespace character is a word character, so whitespace always makes a `\b`. */
  lemma {:induction false} SpaceNotWord(c: char, k: nat)
    requires SpaceFrom(c, k)
    ensures !IsWordChar(c)
    decreases |PySpaces| - k
  {
    if PySpaces[k] != c {
      SpaceNotWord(c, k + 1);
    }
  }

  /** Parentheses and whitespace are not word characters. */
  lemma SeparatorNotWord(c: char)
    ensures c == '(' || c == ')' || IsPySpace(c) ==> !IsWordChar(c)
  {
    if IsPySpace(c) {
      SpaceNotWord(c, 0);
    }
  }

  /** `\b` in front of a word character at `i`: the character before it is not one. */
  predicate WordStart(s: string, i: int)
    requires 0 <= i <= |s|
  {
    i == 0 || !IsWordChar(s[i - 1])
  }

  /** `\b` behind a word character ending at `i`: the character at `i` is not one. */
  predicate WordEnd(s: string, i: int)
    requires 0 <= i <= |s|
  {
    i == |s| || !IsWordChar(s[i])
  }

  /** The end of the run of name characters starting at `i` (a greedy `[A-Z0-9_]*`). */
  function NameEnd(s: string, i: int): (e: int)
    requires 0 <= i <= |s|
    ensures i <= e <= |s|
    ensures forall k :: i <= k < e ==> IsNameChar(s[k])
    ensures e == |s| || !IsNameChar(s[e])
    decreases |s| - i
  {
    if i < |s| && IsNameChar(s[i]) then NameEnd(s, i + 1) else i
  }

  /** The first index at or after `i` whose character is not whitespace (a greedy `\s*`). */
  function SkipSpaces(s: string, i: int): (j: int)
    requires 0 <= i <= |s|
    ensures i <= j <= |s|
    ensures forall k :: i <= k < j ==> IsPySpace(s[k])
    ensures j == |s| || !IsPySpace(s[j])
    decreases |s| - i
  {
    if i < |s| && IsPySpace(s[i]) then SkipSpaces(s, i + 1) else i
  }

  /** The index of the first `c` at or after `i`, or `|s|` when there is none. */
  function FirstFrom(s: string, c: char, i: int): (j: int)
    requires 0 <= i <= |s|
    ensures i <= j <= |s|
    ensures forall k :: i <= k < j ==> s[k] != c
    ensures j == |s| || s[j] == c
    decreases |s| - i
  {
    if i < |s| && s[i] != c then FirstFrom(s, c, i + 1) else i
  }

  // ---------------------------------------------------------------- RE_CONFIG

  /** `RE_CONFIG` matches at `i`: a word boundary, `CONFIG_`, one or more name characters
      and a word boundary. The name run is taken whole: giving back characters cannot
      make the closing `\b` hold, since a name character is a word character. */
  predicate ConfigAt(s: string, i: int)
    requires 0 <= i <= |s|
  {
    OccursAt(s, ConfigPrefix, i) && WordStart(s, i)
    && NameEnd(s, i + |ConfigPrefix|) > i + |ConfigPrefix| && WordEnd(s, NameEnd(s, i + |ConfigPrefix|))
  }

  /** The text a match at `i` covers. */
  function ConfigMatch(s: string, i: int): (x: string)
    requires 0 <= i <= |s| && ConfigAt(s, i)
    ensures IsConfigName(x)
  {
    s[i..NameEnd(s, i + |ConfigPrefix|)]
  }

  /** `RE_CONFIG.findall(s[i..])`: the matches from left to right, resuming after each. */
  function FindConfigs(s: string, i: int): (r: seq<string>)
    requires 0 <= i <= |s|
    ensures forall x :: x in r ==> IsConfigName(x)
    decreases |s| - i
  {
    if i == |s| then []
    else if ConfigAt(s, i) then [ConfigMatch(s, i)] + FindConfigs(s, NameEnd(s, i + |ConfigPrefix|))
    else FindConfigs(s, i + 1)
  }

  /** `x` is the text of a `RE_CONFIG` match starting somewhere in `s[lo..]`. */
  predicate MatchedFrom(s: string, lo: int, x: string)
    requires 0 <= lo <= |s|
  {
    exists j :: lo <= j < |s| && ConfigAt(s, j) && ConfigMatch(s, j) == x
  }

  /** No match starts inside another one: every position after a match's first character
      follows a word character. */
  lemma NoMatchInside(s: string, i: int, j: int)
    requires 0 <= i <= |s| && ConfigAt(s, i)
    requires i < j < NameEnd(s, i + |ConfigPrefix|)
    ensures !ConfigAt(s, j)
  {
    if j <= i + |ConfigPrefix| {
      assert s[i..i + |ConfigPrefix|] == ConfigPrefix;
      assert s[j - 1] == ConfigPrefix[j - 1 - i];
    }
  }

  /** A match after position `i` that is not the one at `i` starts after that one ends. */
  lemma MatchAfter(s: string, i: int, x: string)
    requires 0 <= i < |s| && MatchedFrom(s, i, x)
    requires ConfigAt(s, i) ==> x != ConfigMatch(s, i)
    ensures MatchedFrom(s, if ConfigAt(s, i) then NameEnd(s, i + |ConfigPrefix|) else i + 1, x)
  {
    var j :| i <= j < |s| && ConfigAt(s, j) && ConfigMatch(s, j) == x;
    if ConfigAt(s, i) && j < NameEnd(s, i + |ConfigPrefix|) {
      assert j != i;
      NoMatchInside(s, i, j);
    }
  }

  /** Scanning left to right and resuming after each match loses nothing: the scan lists
      exactly the texts of all positions where the pattern matches. */
  lemma {:induction false} FindConfigsAll(s: string, i: int, x: string)
    requires 0 <= i <= |s|
    ensures x in FindConfigs(s, i) <==> MatchedFrom(s, i, x)
    decreases |s| - i
  {
    if i < |s| {
      var next := if ConfigAt(s, i) then NameEnd(s, i + |ConfigPrefix|) else i + 1;
      FindConfigsAll(s, next, x);
      if MatchedFrom(s, i, x) && (ConfigAt(s, i) ==> x != ConfigMatch(s, i)) {
        MatchAfter(s, i, x);
      }
    }
  }

  // --------------------------------------------------------------- RE_DEFINED

  /** `s[k..e]` is a whole `RE_CONFIG` match. */
  predicate Captured(s: string, k: int, e: int)
    requires 0 <= k <= |s|
  {
    ConfigAt(s, k) && e == NameEnd(s, k + |ConfigPrefix|)
  }

  /** The part of `RE_DEFINED` from its `(` at `j` on: whitespace, a configuration name,
      whitespace, `)`. The result is the captured name's span and the end of the match. */
  function NameInParens(s: string, j: int): (r: Option<(int, int, int)>)
    requires 0 <= j < |s| && s[j] == '('
    ensures r.Some? ==> j < r.value.0 < r.value.2 <= |s| && Captured(s, r.value.0, r.value.1)
  {
    var k := SkipSpaces(s, j + 1);
    if !OccursAt(s, ConfigPrefix, k) || NameEnd(s, k + |ConfigPrefix|) == k + |ConfigPrefix| then None
    else
      var e := NameEnd(s, k + |ConfigPrefix|);
      var m := SkipSpaces(s, e);
      if m == |s| || s[m] != ')' then None
      else
        SeparatorNotWord(s[k - 1]);
        SeparatorNotWord(s[e]);
        assert Captured(s, k, e);
        Some((k, e, m + 1))
  }

  /** `RE_DEFINED` at `i`: `defined` at a word boundary, whitespace, then `(` and the rest. */
  function DefinedAt(s: string, i: int): (r: Option<(int, int, int)>)
    requires 0 <= i <= |s|
    ensures r.Some? ==> i < r.value.0 < r.value.2 <= |s| && Captured(s, r.value.0, r.value.1)
  {
    if !(OccursAt(s, "defined", i) && WordStart(s, i)) then None
    else
      var j := SkipSpaces(s, i + 7);
      if j == |s| || s[j] != '(' then None else NameInParens(s, j)
  }

  /** The names `RE_DEFINED.finditer(s[i..])` captures, left to right. Each is also a
      `RE_CONFIG` match of the same text. */
  function FindDefined(s: string, i: int): (r: seq<string>)
    requires 0 <= i <= |s|
    ensures forall x :: x in r ==> MatchedFrom(s, i, x)
    decreases |s| - i
  {
    if i == |s| then []
    else match DefinedAt(s, i)
      case Some((k, e, m)) =>
        assert ConfigMatch(s, k) == s[k..e];
        [s[k..e]] + FindDefined(s, m)
      case None => FindDefined(s, i + 1)
  }

  /** `extract_configs_from_expr` as a list with repeats: the `RE_CONFIG` matches, then
      the names inside `defined(...)`. */
  function ExtractConfigs(expr: string): (r: seq<string>)
    ensures forall x :: x in r ==> IsConfigName(x)
  {
    FindConfigs(expr, 0) + FindDefined(expr, 0)
  }

  /** The `defined(...)` pass adds no name the plain `CONFIG_` pass missed: the set of
      extracted names is exactly the set of `RE_CONFIG` matches. */
  lemma ExtractIsConfigMatches(expr: string, x: string)
    ensures x in ExtractConfigs(expr) <==> MatchedFrom(expr, 0, x)
  {
    FindConfigsAll(expr, 0, x);
  }

  // ---------------------------------------------------------------- RE_MACROS

  const Macros: seq<string> := ["IS_ENABLED", "IS_REACHABLE", "IS_BUILTIN", "IS_MODULE"]

  datatype MacroUse = MacroUse(macro: string, args: string)

  /** No `)` in `s`. */
  predicate NoCloseParen(s: string) {
    forall k :: 0 <= k < |s| ==> s[k] != ')'
  }

  /** The rest of a `RE_MACROS` match once the macro name `name` has matched at `i`:
      whitespace, `(`, and the shortest argument text up to a `)`, i.e. up to the first
      `)`. The result is the use and the index just after that `)`. */
  function MacroCall(s: string, i: int, name: string): (r: Option<(MacroUse, int)>)
    requires 0 <= i && i + |name| <= |s|
    ensures r.Some? ==> var (u, end) := r.value;
      u.macro == name && i < end <= |s| && s[end - 1] == ')' && NoCloseParen(u.args)
  {
    var j := SkipSpaces(s, i + |name|);
    if j < |s| && s[j] == '(' then
      var c := FirstFrom(s, ')', j + 1);
      if c < |s| then Some((MacroUse(name, s[j + 1..c]), c + 1)) else None
    else None
  }

  /** `RE_MACROS` at `i`, trying the alternatives `names` in order: a macro name at a word
      boundary, then its call. */
  function MacroAt(s: string, i: int, names: seq<string>): (r: Option<(MacroUse, int)>)
    requires 0 <= i <= |s|
    ensures r.Some? ==> var (u, end) := r.value;
      u.macro in names && OccursAt(s, u.macro, i) && i < end <= |s|
      && s[end - 1] == ')' && NoCloseParen(u.args)
  {
    if names == [] then None
    else
      var call := if OccursAt(s, names[0], i) && WordStart(s, i) then MacroCall(s, i, names[0]) else None;
      if call.Some? then call else MacroAt(s, i, names[1..])
  }

  /** `RE_MACROS.finditer(s[i..])`: the uses from left to right, resuming after each match,
      so that a macro inside another's argument text is not reported. */
  function FindMacros(s: string, i: int): (r: seq<MacroUse>)
    requires 0 <= i <= |s|
    ensures r != [] ==> exists m :: m in Macros && Contains(s, m)
    decreases |s| - i
  {
    if i == |s| then []
    else match MacroAt(s, i, Macros)
      case Some((u, end)) =>
        assert OccursAt(s, u.macro, i);
        [u] + FindMacros(s, end)
      case None => FindMacros(s, i + 1)
  }

  // --------------------------------------------------------------- RE_PREPROC

  /** The directive keywords, in the order the pattern's alternation tries them. */
  const Directives: seq<string> := ["if", "ifdef", "ifndef", "elif", "else", "endif"]

  /** The first of `kws` that stands at `i` as a whole word. */
  function KeywordAt(s: string, i: int, kws: seq<string>): (r: Option<string>)
    requires 0 <= i <= |s|
    ensures r.Some? ==> r.value in kws && OccursAt(s, r.value, i) && WordEnd(s, i + |r.value|)
  {
    if kws == [] then None
    else if OccursAt(s, kws[0], i) && WordEnd(s, i + |kws[0]|) then Some(kws[0])
    else KeywordAt(s, i, kws[1..])
  }

  /** A matched directive: its keyword and the rest of the line, stripped. */
  datatype Directive = Directive(kind: string, tail: string)

  /** `RE_PREPROC.match(line)`: whitespace, `#`, whitespace, a keyword as a whole word, and
      the rest of the line up to its end or its final newline (`.` stops at a newline, and
      `$` allows only a final one). */
  function ParseDirective(line: string): (r: Option<Directive>)
    ensures r.Some? ==> r.value.kind in Directives && Strip(r.value.tail) == r.value.tail
  {
    var h := SkipSpaces(line, 0);
    if h == |line| || line[h] != '#' then None
    else
      var i := SkipSpaces(line, h + 1);
      match KeywordAt(line, i, Directives)
      case None => None
      case Some(kw) =>
        var t := i + |kw|;
        var nl := FirstFrom(line, '\n', t);
        if nl < |line| - 1 then None
        else
          StripIdempotent(line[t..nl]);
          Some(Directive(kw, Strip(line[t..nl])))
  }

  /** Stripping twice strips nothing more. */
  lemma StripIdempotent(s: string)
    ensures Strip(Strip(s)) == Strip(s)
  {
    var l := LStrip(s);
    TrimLeftRemovesHead(s, IsPySpace);
    TrimRightRemovesTail(l, IsPySpace);
    var r := RStrip(l);
    assert LStrip(r) == r by {
      if r != [] { assert r[0] == l[0]; }
    }
    assert RStrip(r) == r;
  }

  // ------------------------------------------------------------------ snippets

  /** The text a generic row shows: the stripped line, cut to its first 197 characters plus
      `...` when it is longer than 200. */
  function Snippet(line: string): (r: string)
    ensures |r| <= 200
    ensures |Strip(line)| <= 200 <==> r == Strip(line)
    ensures r != Strip(line) ==> |r| == 200 && r[..197] == Strip(line)[..197] && r[197..] == "..."
  {
    var t := Strip(line);
    if |t| > 200 then t[..197] + "..." else t
  }
}
