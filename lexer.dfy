/** The tokenizer of the configuration-expression solver: it skips blanks and cuts the text
    into `&&`, `||`, `!`, `(`, `)` and maximal `CONFIG_[A-Za-z0-9_]+` identifiers, and
    stops with an error at the first character that starts none of these. */
module ExprLexer {
  import opened Text

  /** The four characters the tokenizer skips. */
  predicate IsBlank(c: char) {
    c == ' ' || c == '\t' || c == '\r' || c == '\n'
  }

  /** `[A-Za-z0-9_]`. */
  predicate IsIdentChar(c: char) {
    ('A' <= c <= 'Z') || ('a' <= c <= 'z') || ('0' <= c <= '9') || c == '_'
  }

  const VarPrefix: string := "CONFIG_"

  /** A token that fully matches `CONFIG_[A-Za-z0-9_]+`. */
  predicate IsVarToken(t: string) {
    |t| > |VarPrefix| && StartsWith(t, VarPrefix) && AllSatisfy(t, |VarPrefix|, |t|, IsIdentChar)
  }

  predicate IsOperator(t: string) {
    t == "&&" || t == "||" || t == "!" || t == "(" || t == ")"
  }

  /** The end of the run of identifier characters that starts at `k`. */
  function IdentEnd(s: string, k: nat): (e: nat)
    requires k <= |s|
    ensures k <= e <= |s|
    ensures AllSatisfy(s, k, e, IsIdentChar)
    ensures e == |s| || !IsIdentChar(s[e])
    decreases |s| - k
  {
    if k < |s| && IsIdentChar(s[k]) then IdentEnd(s, k + 1) else k
  }

  /** The identifier pattern matches at `i`: the prefix and at least one identifier character. */
  predicate VarAt(s: string, i: nat) {
    OccursAt(s, VarPrefix, i) && i + |VarPrefix| < |s| && IsIdentChar(s[i + |VarPrefix|])
  }

  datatype LexResult = Tokens(toks: seq<string>) | LexError(pos: nat)

  /** `toks` in front of a result; an error stays the error. */
  function Glue(toks: seq<string>, r: LexResult): LexResult {
    match r
    case Tokens(rest) => Tokens(toks + rest)
    case LexError(p) => r
  }

  /** A token, or a blank to skip, starts at `i`. */
  predicate Starts(s: string, i: nat)
    requires i < |s|
  {
    IsBlank(s[i]) || OccursAt(s, "&&", i) || OccursAt(s, "||", i)
    || s[i] == '!' || s[i] == '(' || s[i] == ')' || VarAt(s, i)
  }

  /** One round of `tokenize` at `i`, in its order of tests: the tokens it appends (none for
      a blank) and the index it moves on to. */
  function Step(s: string, i: nat): (r: (seq<string>, nat))
    requires i < |s| && Starts(s, i)
    ensures i < r.1 <= |s|
  {
    if IsBlank(s[i]) then ([], i + 1)
    else if OccursAt(s, "&&", i) then (["&&"], i + 2)
    else if OccursAt(s, "||", i) then (["||"], i + 2)
    else if s[i] == '!' || s[i] == '(' || s[i] == ')' then ([[s[i]]], i + 1)
    else ([s[i..IdentEnd(s, i + |VarPrefix|)]], IdentEnd(s, i + |VarPrefix|))
  }

  /** What tokenizing `s` from index `i` on gives. */
  function LexFrom(s: string, i: nat): LexResult
    requires i <= |s|
    decreases |s| - i
  {
    if i == |s| then Tokens([])
    else if !Starts(s, i) then LexError(i)
    else Glue(Step(s, i).0, LexFrom(s, Step(s, i).1))
  }

  function Lex(s: string): LexResult {
    LexFrom(s, 0)
  }

  lemma GlueAssoc(a: seq<string>, b: seq<string>, r: LexResult)
    ensures Glue(a, Glue(b, r)) == Glue(a + b, r)
  {
    if r.Tokens? {
      assert a + (b + r.toks) == (a + b) + r.toks;
    }
  }

  /** One round of `tokenize` keeps what has been emitted, followed by what the rest of the
      text gives, equal to what the whole text gives. */
  lemma Advance(s: string, out: seq<string>, i: nat, toks: seq<string>, j: nat)
    requires i < |s| && Starts(s, i) && Step(s, i) == (toks, j)
    requires Glue(out, LexFrom(s, i)) == Lex(s)
    ensures Glue(out + toks, LexFrom(s, j)) == Lex(s)
  {
    GlueAssoc(out, toks, LexFrom(s, j));
  }

  /** `tokenize`. */
  method Tokenize(s: string) returns (r: LexResult)
    ensures r == Lex(s)
  {
    var out: seq<string> := [];
    var i := 0;
    var n := |s|;
    while i < n
      invariant 0 <= i <= n
      invariant Glue(out, LexFrom(s, i)) == Lex(s)
      decreases n - i
    {
      var c := s[i];
      if IsBlank(c) {
        assert out + [] == out;
        Advance(s, out, i, [], i + 1);
        i := i + 1;
        continue;
      }
      if i + 2 <= n && s[i..i + 2] == "&&" {
        assert OccursAt(s, "&&", i);
        Advance(s, out, i, ["&&"], i + 2);
        out := out + ["&&"];
        i := i + 2;
        continue;
      }
      if i + 2 <= n && s[i..i + 2] == "||" {
        assert OccursAt(s, "||", i) && !OccursAt(s, "&&", i);
        Advance(s, out, i, ["||"], i + 2);
        out := out + ["||"];
        i := i + 2;
        continue;
      }
      assert !OccursAt(s, "&&", i) && !OccursAt(s, "||", i);
      if c == '!' || c == '(' || c == ')' {
        Advance(s, out, i, [[c]], i + 1);
        out := out + [[c]];
        i := i + 1;
        continue;
      }
      if VarAt(s, i) {
        var e := IdentEnd(s, i + |VarPrefix|);
        Advance(s, out, i, [s[i..e]], e);
        out := out + [s[i..e]];
        i := e;
        continue;
      }
      assert !Starts(s, i);
      return LexError(i);
    }
    r := Tokens(out);
    assert out + [] == out;
  }

  // ---------------------------------------------------------------------------------------
  // Properties

  /** An identifier the pattern matches at `i` is a whole identifier token without blanks. */
  lemma VarSpan(s: string, i: nat)
    requires VarAt(s, i)
    ensures var u := s[i..IdentEnd(s, i + |VarPrefix|)];
      IsVarToken(u) && WithoutBlanks(u) == u
  {
    var e := IdentEnd(s, i + |VarPrefix|);
    var u := s[i..e];
    assert u[..|VarPrefix|] == s[i..i + |VarPrefix|];
    forall k | |VarPrefix| <= k < |u| ensures IsIdentChar(u[k]) {
      assert u[k] == s[i + k];
    }
    forall k | 0 <= k < |u| ensures !IsBlank(u[k]) {
      if k < |VarPrefix| {
        assert u[k] == u[..|VarPrefix|][k];
      }
    }
    NoBlankToken(u);
  }

  lemma ConcatSingle(t: string)
    ensures Concat([t]) == t
  {
    assert [t][1..] == [];
  }

  /** What one round appends is an operator or a whole identifier, and it spells out the
      consumed text without its blanks. */
  lemma StepSpan(s: string, i: nat)
    requires i < |s| && Starts(s, i)
    ensures forall t :: t in Step(s, i).0 ==> IsOperator(t) || IsVarToken(t)
    ensures Concat(Step(s, i).0) == WithoutBlanks(s[i..Step(s, i).1])
  {
    if IsBlank(s[i]) {
      assert s[i..i + 1] == [s[i]];
      assert WithoutBlanks([s[i]]) == [] + WithoutBlanks([]);
    } else if OccursAt(s, "&&", i) {
      ConcatSingle("&&");
      NoBlankToken("&&");
    } else if OccursAt(s, "||", i) {
      ConcatSingle("||");
      NoBlankToken("||");
    } else if s[i] == '!' || s[i] == '(' || s[i] == ')' {
      assert s[i..i + 1] == [s[i]];
      ConcatSingle([s[i]]);
      NoBlankToken([s[i]]);
    } else {
      VarSpan(s, i);
      ConcatSingle(s[i..IdentEnd(s, i + |VarPrefix|)]);
    }
  }

  /** Every token is an operator or a whole identifier. */
  lemma {:induction false} LexTokensWellFormed(s: string, i: nat)
    requires i <= |s|
    requires LexFrom(s, i).Tokens?
    ensures forall t :: t in LexFrom(s, i).toks ==> IsOperator(t) || IsVarToken(t)
    decreases |s| - i
  {
    if i < |s| {
      StepSpan(s, i);
      LexTokensWellFormed(s, Step(s, i).1);
    }
  }

  /** The input without the characters the tokenizer skips. */
  function WithoutBlanks(s: string): (r: string)
    ensures |r| <= |s|
  {
    if s == [] then []
    else (if IsBlank(s[0]) then [] else [s[0]]) + WithoutBlanks(s[1..])
  }

  function Concat(toks: seq<string>): string {
    if toks == [] then [] else toks[0] + Concat(toks[1..])
  }

  lemma ConcatAppend(a: seq<string>, b: seq<string>)
    ensures Concat(a + b) == Concat(a) + Concat(b)
  {
    if a == [] {
      assert a + b == b;
    } else {
      assert (a + b)[1..] == a[1..] + b;
      ConcatAppend(a[1..], b);
    }
  }

  lemma WithoutBlanksAppend(a: string, b: string)
    ensures WithoutBlanks(a + b) == WithoutBlanks(a) + WithoutBlanks(b)
  {
    if a == [] {
      assert a + b == b;
    } else {
      assert (a + b)[1..] == a[1..] + b;
      WithoutBlanksAppend(a[1..], b);
    }
  }

  /** Text with no blank in it is its own `WithoutBlanks`. */
  lemma NoBlankToken(t: string)
    requires forall k :: 0 <= k < |t| ==> !IsBlank(t[k])
    ensures WithoutBlanks(t) == t
  {
    if t != [] {
      NoBlankToken(t[1..]);
      assert t == [t[0]] + t[1..];
    }
  }

  /** Joining the tokens gives back the input from `i` on with its blanks removed: every
      other character ends up in exactly one token. */
  lemma {:induction false} LexConcat(s: string, i: nat)
    requires i <= |s|
    requires LexFrom(s, i).Tokens?
    ensures Concat(LexFrom(s, i).toks) == WithoutBlanks(s[i..])
    decreases |s| - i
  {
    if i < |s| {
      var step := Step(s, i);
      StepSpan(s, i);
      LexConcat(s, step.1);
      ConcatAppend(step.0, LexFrom(s, step.1).toks);
      assert s[i..] == s[i..step.1] + s[step.1..];
      WithoutBlanksAppend(s[i..step.1], s[step.1..]);
    }
  }

  /** The error position is a character that starts no token and is not blank. */
  lemma {:induction false} LexErrorAtBadChar(s: string, i: nat)
    requires i <= |s|
    requires LexFrom(s, i).LexError?
    ensures var p := LexFrom(s, i).pos;
      i <= p < |s| && !IsBlank(s[p]) && !OccursAt(s, "&&", p) && !OccursAt(s, "||", p)
      && s[p] != '!' && s[p] != '(' && s[p] != ')' && !VarAt(s, p)
    decreases |s| - i
  {
    if i < |s| && Starts(s, i) {
      LexErrorAtBadChar(s, Step(s, i).1);
    }
  }

  /** The characters a token can be made of. */
  predicate IsTokenChar(c: char) {
    IsIdentChar(c) || c == '&' || c == '|' || c == '!' || c == '(' || c == ')'
  }

  /** Text holding a character that is neither blank nor a token character does not tokenize. */
  lemma ForeignCharRejected(s: string, p: nat)
    requires p < |s| && !IsBlank(s[p]) && !IsTokenChar(s[p])
    ensures Lex(s).LexError?
  {
    if Lex(s).Tokens? {
      LexTokensWellFormed(s, 0);
      LexConcat(s, 0);
      var toks := Lex(s).toks;
      TokenCharsOnly(toks);
      WithoutBlanksKeeps(s, p);
    }
  }

  /** All characters of the joined tokens are token characters. */
  lemma TokenCharsOnly(toks: seq<string>)
    requires forall t :: t in toks ==> IsOperator(t) || IsVarToken(t)
    ensures forall k :: 0 <= k < |Concat(toks)| ==> IsTokenChar(Concat(toks)[k])
  {
    if toks != [] {
      TokenCharsOnly(toks[1..]);
      var t := toks[0];
      assert t in toks;
      forall k | 0 <= k < |t| ensures IsTokenChar(t[k]) {
        if IsVarToken(t) && k < |VarPrefix| {
          assert t[k] == t[..|VarPrefix|][k];
        }
      }
    }
  }

  /** A non-blank character of `s` survives in `WithoutBlanks(s)`. */
  lemma WithoutBlanksKeeps(s: string, p: nat)
    requires p < |s| && !IsBlank(s[p])
    ensures s[p] in WithoutBlanks(s)
  {
    if p > 0 {
      WithoutBlanksKeeps(s[1..], p - 1);
    }
  }
}
