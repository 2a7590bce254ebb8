/** Precedence and associativity of the expression parser, stated as a round trip: printing a
    tree with the fewest parentheses the grammar needs (`&&` binds tighter than `||`, both
    group to the left) and parsing the tokens gives the tree back. */
module ExprGrammar {
  import opened Wrappers
  import opened ExprLexer
  import opened ExprParser

  /** Every variable of the tree is a token the parser accepts as a variable. */
  predicate NamesOk(n: Node) {
    match n
    case Var(x) => IsVarToken(x)
    case Not(a) => NamesOk(a)
    case And(a, b) => NamesOk(a) && NamesOk(b)
    case Or(a, b) => NamesOk(a) && NamesOk(b)
  }

  // The printers call each other on the same tree (a parenthesised factor is an expression),
  // so each carries a rank that orders those calls.
  function ExprRank(n: Node): nat { if n.Or? then 0 else if n.And? then 1 else 2 }
  function TermRank(n: Node): nat { if n.Or? then 2 else if n.And? then 0 else 1 }
  function FactorRank(n: Node): nat { if n.Or? then 1 else if n.And? then 2 else 0 }

  /** An expression: the left operand of `||` is an expression, the right one a term. */
  function ShowExpr(n: Node): seq<string>
    decreases n, ExprRank(n)
  {
    if n.Or? then ShowExpr(n.a) + ["||"] + ShowTerm(n.b) else ShowTerm(n)
  }

  /** A term: the left operand of `&&` is a term, the right one a factor. */
  function ShowTerm(n: Node): seq<string>
    decreases n, TermRank(n)
  {
    if n.And? then ShowTerm(n.a) + ["&&"] + ShowFactor(n.b) else ShowFactor(n)
  }

  /** A factor: a variable, a negated factor, or a parenthesised expression. */
  function ShowFactor(n: Node): seq<string>
    decreases n, FactorRank(n)
  {
    match n
    case Var(x) => [x]
    case Not(a) => ["!"] + ShowFactor(a)
    case _ => ["("] + ShowExpr(n) + [")"]
  }

  /** `toks` spells `w` from index `i`. */
  predicate At(toks: seq<string>, i: nat, w: seq<string>) {
    i + |w| <= |toks| && forall k :: 0 <= k < |w| ==> toks[i + k] == w[k]
  }

  /** The token at `j`, if there is one, is not `t`. */
  predicate NotBefore(toks: seq<string>, j: nat, t: string) {
    j >= |toks| || toks[j] != t
  }

  lemma AtSplit(toks: seq<string>, i: nat, u: seq<string>, v: seq<string>)
    requires At(toks, i, u + v)
    ensures At(toks, i, u) && At(toks, i + |u|, v)
  {
    forall k | 0 <= k < |u|
      ensures toks[i + k] == u[k]
    {
      assert toks[i + k] == (u + v)[k];
    }
    forall k | 0 <= k < |v|
      ensures toks[i + |u| + k] == v[k]
    {
      assert toks[i + (|u| + k)] == (u + v)[|u| + k];
    }
  }

  lemma AtSplit3(toks: seq<string>, i: nat, u: seq<string>, t: string, v: seq<string>)
    requires At(toks, i, u + [t] + v)
    ensures At(toks, i, u) && i + |u| < |toks| && toks[i + |u|] == t && At(toks, i + |u| + 1, v)
  {
    AtSplit(toks, i, u + [t], v);
    AtSplit(toks, i, u, [t]);
    assert toks[i + |u| + 0] == [t][0];
  }

  /** A printed factor parses back as that factor. */
  lemma {:induction false} FactorRoundTrip(n: Node, toks: seq<string>, i: nat)
    requires NamesOk(n) && At(toks, i, ShowFactor(n))
    ensures FactorAt(toks, i) == POk(n, i + |ShowFactor(n)|)
    decreases n, FactorRank(n), 2
  {
    match n
    case Var(x) => VarRoundTrip(x, toks, i);
    case Not(a) => NotRoundTrip(a, toks, i);
    case _ => ParenRoundTrip(n, toks, i);
  }

  lemma VarRoundTrip(x: string, toks: seq<string>, i: nat)
    requires IsVarToken(x) && At(toks, i, [x])
    ensures FactorAt(toks, i) == POk(Var(x), i + 1)
  {
    assert toks[i + 0] == [x][0];
    assert x[0] == 'C' by { assert x[..|VarPrefix|][0] == VarPrefix[0]; }
    assert toks[i] != "!" && toks[i] != "(";
  }

  lemma {:induction false} NotRoundTrip(a: Node, toks: seq<string>, i: nat)
    requires NamesOk(a) && At(toks, i, ["!"] + ShowFactor(a))
    ensures FactorAt(toks, i) == POk(Not(a), i + 1 + |ShowFactor(a)|)
    decreases Not(a), 0, 0
  {
    AtSplit(toks, i, ["!"], ShowFactor(a));
    assert toks[i + 0] == ["!"][0];
    FactorRoundTrip(a, toks, i + 1);
  }

  lemma {:induction false} ParenRoundTrip(n: Node, toks: seq<string>, i: nat)
    requires (n.And? || n.Or?) && NamesOk(n) && At(toks, i, ["("] + ShowExpr(n) + [")"])
    ensures FactorAt(toks, i) == POk(n, i + 2 + |ShowExpr(n)|)
    decreases n, FactorRank(n), 1
  {
    var k := i + 1 + |ShowExpr(n)|;
    assert ["("] + ShowExpr(n) + [")"] == [] + ["("] + (ShowExpr(n) + [")"]);
    AtSplit3(toks, i, [], "(", ShowExpr(n) + [")"]);
    assert ShowExpr(n) + [")"] == ShowExpr(n) + [")"] + [];
    AtSplit3(toks, i + 1, ShowExpr(n), ")", []);
    ExprPrefix(n, toks, i + 1);
    ParenFactor(toks, i, n, k);
  }

  /** A parenthesised expression is a factor. */
  lemma ParenFactor(toks: seq<string>, i: nat, n: Node, k: nat)
    requires i < k < |toks| && toks[i] == "(" && toks[k] == ")"
    requires ExprAt(toks, i + 1) == ExprTail(toks, n, k)
    ensures FactorAt(toks, i) == POk(n, k + 1)
  {
    assert ExprTail(toks, n, k) == POk(n, k);
    assert EatAt(toks, k, Some(")")) == Success(")");
  }

  // One unfolding of each of the parser's functions, kept apart from the printers.

  lemma TermStart(toks: seq<string>, i: nat, n: Node, e: nat)
    requires i <= |toks| && FactorAt(toks, i) == POk(n, e)
    ensures TermAt(toks, i) == TermTail(toks, n, e)
  {
  }

  lemma TermTailStep(toks: seq<string>, acc: Node, j: nat, m: Node, k: nat)
    requires j < |toks| && toks[j] == "&&" && FactorAt(toks, j + 1) == POk(m, k)
    ensures TermTail(toks, acc, j) == TermTail(toks, And(acc, m), k)
  {
  }

  lemma ExprStart(toks: seq<string>, i: nat, n: Node, e: nat)
    requires i <= |toks| && TermAt(toks, i) == POk(n, e)
    ensures ExprAt(toks, i) == ExprTail(toks, n, e)
  {
  }

  lemma ExprTailStep(toks: seq<string>, acc: Node, j: nat, m: Node, k: nat)
    requires j < |toks| && toks[j] == "||" && TermAt(toks, j + 1) == POk(m, k)
    ensures ExprTail(toks, acc, j) == ExprTail(toks, Or(acc, m), k)
  {
  }

  /** A term loop stops where no `&&` follows. */
  lemma TermTailStop(toks: seq<string>, acc: Node, j: nat)
    requires j <= |toks| && NotBefore(toks, j, "&&")
    ensures TermTail(toks, acc, j) == POk(acc, j)
  {
  }

  /** Parsing a term from the start of a printed term reaches its end with that term as the
      tree so far, whatever follows. */
  lemma {:induction false} TermPrefix(n: Node, toks: seq<string>, i: nat)
    requires NamesOk(n) && At(toks, i, ShowTerm(n))
    ensures TermAt(toks, i) == TermTail(toks, n, i + |ShowTerm(n)|)
    decreases n, TermRank(n), 2
  {
    if n.And? {
      TermAndPrefix(n.a, n.b, toks, i);
    } else {
      FactorRoundTrip(n, toks, i);
      TermStart(toks, i, n, i + |ShowFactor(n)|);
    }
  }

  lemma {:induction false} TermAndPrefix(a: Node, b: Node, toks: seq<string>, i: nat)
    requires NamesOk(a) && NamesOk(b) && At(toks, i, ShowTerm(a) + ["&&"] + ShowFactor(b))
    ensures TermAt(toks, i) == TermTail(toks, And(a, b), i + |ShowTerm(a)| + 1 + |ShowFactor(b)|)
    decreases And(a, b), 0, 1
  {
    var j := i + |ShowTerm(a)|;
    AtSplit3(toks, i, ShowTerm(a), "&&", ShowFactor(b));
    TermPrefix(a, toks, i);
    FactorRoundTrip(b, toks, j + 1);
    TermTailStep(toks, a, j, b, j + 1 + |ShowFactor(b)|);
  }

  /** Parsing an expression from the start of a printed expression that is not followed by
      `&&` reaches its end with that expression as the tree so far. */
  lemma {:induction false} ExprPrefix(n: Node, toks: seq<string>, i: nat)
    requires NamesOk(n) && At(toks, i, ShowExpr(n))
    requires NotBefore(toks, i + |ShowExpr(n)|, "&&")
    ensures ExprAt(toks, i) == ExprTail(toks, n, i + |ShowExpr(n)|)
    decreases n, ExprRank(n), 2
  {
    if n.Or? {
      ExprOrPrefix(n.a, n.b, toks, i);
    } else {
      var e := i + |ShowTerm(n)|;
      TermPrefix(n, toks, i);
      TermTailStop(toks, n, e);
      ExprStart(toks, i, n, e);
    }
  }

  lemma {:induction false} ExprOrPrefix(a: Node, b: Node, toks: seq<string>, i: nat)
    requires NamesOk(a) && NamesOk(b) && At(toks, i, ShowExpr(a) + ["||"] + ShowTerm(b))
    requires NotBefore(toks, i + |ShowExpr(a)| + 1 + |ShowTerm(b)|, "&&")
    ensures ExprAt(toks, i) == ExprTail(toks, Or(a, b), i + |ShowExpr(a)| + 1 + |ShowTerm(b)|)
    decreases Or(a, b), 0, 1
  {
    var j := i + |ShowExpr(a)|;
    var k := j + 1 + |ShowTerm(b)|;
    AtSplit3(toks, i, ShowExpr(a), "||", ShowTerm(b));
    assert NotBefore(toks, j, "&&");
    ExprPrefix(a, toks, i);
    TermPrefix(b, toks, j + 1);
    TermTailStop(toks, b, k);
    assert TermAt(toks, j + 1) == POk(b, k);
    ExprTailStep(toks, a, j, b, k);
  }

  /** Parsing the printed form of a tree gives the tree back: `&&` binds tighter than `||`,
      both group to the left, and parentheses are needed exactly where the printer puts them. */
  lemma ParsePrinted(n: Node)
    requires NamesOk(n)
    ensures Parse(ShowExpr(n)) == Success(n)
  {
    var toks := ShowExpr(n);
    assert At(toks, 0, toks);
    ExprPrefix(n, toks, 0);
  }
}
