/** The recursive-descent parser of the configuration-expression solver, for the grammar
      expr   := term ( '||' term )*
      term   := factor ( '&&' factor )*
      factor := '!' factor | '(' expr ')' | VAR
    The parser is an object whose cursor moves as tokens are eaten; what each of its methods
    computes is given by a function on the token sequence and a start index. */
module ExprParser {
  import opened Wrappers
  import opened ExprLexer

  datatype Node = Var(name: string) | Not(a: Node) | And(a: Node, b: Node) | Or(a: Node, b: Node)

  /** The errors the parser raises. */
  datatype ParseError =
    | UnexpectedEnd
    | Expected(want: string, got: string)
    | ExtraTokens(tok: string)
    | BadFactor(at: Option<string>)

  /** A parse from some index: the tree and the index after it, or the error raised. */
  datatype PResult = POk(node: Node, next: nat) | PFail(err: ParseError)

  // ---------------------------------------------------------------------------------------
  // What the parser computes

  /** `eat(t)` at index `i`. */
  function EatAt(toks: seq<string>, i: nat, t: Option<string>): Result<string, ParseError> {
    if i >= |toks| then Failure(UnexpectedEnd)
    else if t.Some? && toks[i] != t.value then Failure(Expected(t.value, toks[i]))
    else Success(toks[i])
  }

  /** `expr()` from index `i`. */
  function ExprAt(toks: seq<string>, i: nat): (r: PResult)
    requires i <= |toks|
    ensures r.POk? ==> i < r.next <= |toks|
    decreases |toks| - i, 1
  {
    match TermAt(toks, i)
    case PFail(e) => PFail(e)
    case POk(n, j) => ExprTail(toks, n, j)
  }

  /** The `'||' term` loop of `expr()`, with `acc` the tree so far and `j` the cursor. */
  function ExprTail(toks: seq<string>, acc: Node, j: nat): (r: PResult)
    requires j <= |toks|
    ensures r.POk? ==> j <= r.next <= |toks|
    decreases |toks| - j, 3
  {
    if j < |toks| && toks[j] == "||" then
      match TermAt(toks, j + 1)
      case PFail(e) => PFail(e)
      case POk(m, k) => ExprTail(toks, Or(acc, m), k)
    else POk(acc, j)
  }

  /** `term()` from index `i`. */
  function TermAt(toks: seq<string>, i: nat): (r: PResult)
    requires i <= |toks|
    ensures r.POk? ==> i < r.next <= |toks|
    decreases |toks| - i, 0
  {
    match FactorAt(toks, i)
    case PFail(e) => PFail(e)
    case POk(n, j) => TermTail(toks, n, j)
  }

  /** The `'&&' factor` loop of `term()`. */
  function TermTail(toks: seq<string>, acc: Node, j: nat): (r: PResult)
    requires j <= |toks|
    ensures r.POk? ==> j <= r.next <= |toks|
    decreases |toks| - j, 2
  {
    if j < |toks| && toks[j] == "&&" then
      match FactorAt(toks, j + 1)
      case PFail(e) => PFail(e)
      case POk(m, k) => TermTail(toks, And(acc, m), k)
    else POk(acc, j)
  }

  /** `factor()` from index `i`. */
  function FactorAt(toks: seq<string>, i: nat): (r: PResult)
    requires i <= |toks|
    ensures r.POk? ==> i < r.next <= |toks|
    decreases |toks| - i, -1
  {
    if i < |toks| && toks[i] == "!" then
      match FactorAt(toks, i + 1)
      case PFail(e) => PFail(e)
      case POk(n, j) => POk(Not(n), j)
    else if i < |toks| && toks[i] == "(" then
      match ExprAt(toks, i + 1)
      case PFail(e) => PFail(e)
      case POk(n, j) =>
        match EatAt(toks, j, Some(")"))
        case Failure(e) => PFail(e)
        case Success(_) => POk(n, j + 1)
    else if i < |toks| && IsVarToken(toks[i]) then POk(Var(toks[i]), i + 1)
    else PFail(BadFactor(if i < |toks| then Some(toks[i]) else None))
  }

  /** `parse()` from index `i`: an expression that must use up every token. */
  function ParseFrom(toks: seq<string>, i: nat): (r: Result<Node, ParseError>)
    requires i <= |toks|
    ensures r.Success? ==> ExprAt(toks, i) == POk(r.value, |toks|)
  {
    match ExprAt(toks, i)
    case PFail(e) => Failure(e)
    case POk(n, j) => if j < |toks| then Failure(ExtraTokens(toks[j])) else Success(n)
  }

  /** `Parser(tokens).parse()`. */
  function Parse(toks: seq<string>): Result<Node, ParseError> {
    ParseFrom(toks, 0)
  }

  /** A method's outcome as a `PResult`: its tree and the cursor after it, or its error. */
  function Outcome(r: Result<Node, ParseError>, cursor: nat): PResult {
    match r
    case Success(n) => POk(n, cursor)
    case Failure(e) => PFail(e)
  }

  // ---------------------------------------------------------------------------------------
  // The parser object

  class Parser {
    const toks: seq<string>
    var i: nat

    constructor (tokens: seq<string>)
      ensures toks == tokens && i == 0
    {
      toks := tokens;
      i := 0;
    }

    function Peek(): (r: Option<string>)
      reads this
      ensures r.Some? <==> i < |toks|
      ensures r.Some? ==> r.value == toks[i]
    {
      if i < |toks| then Some(toks[i]) else None
    }

    method Eat(t: Option<string>) returns (r: Result<string, ParseError>)
      requires i <= |toks|
      modifies this
      ensures r == EatAt(toks, old(i), t)
      ensures i == if r.Success? then old(i) + 1 else old(i)
      ensures i <= |toks|
    {
      if i >= |toks| {
        return Failure(UnexpectedEnd);
      }
      var tok := toks[i];
      if t.Some? && tok != t.value {
        return Failure(Expected(t.value, tok));
      }
      i := i + 1;
      return Success(tok);
    }

    method Parse() returns (r: Result<Node, ParseError>)
      requires i <= |toks|
      modifies this
      ensures r == ParseFrom(toks, old(i))
    {
      var e := Expr();
      if e.Failure? {
        return e;
      }
      var p := Peek();
      if p.Some? {
        return Failure(ExtraTokens(p.value));
      }
      return e;
    }

    method Expr() returns (r: Result<Node, ParseError>)
      requires i <= |toks|
      modifies this
      ensures i <= |toks|
      ensures ExprAt(toks, old(i)) == Outcome(r, i)
      decreases |toks| - i, 1
    {
      var t := Term();
      if t.Failure? {
        return t;
      }
      var n := t.value;
      while Peek() == Some("||")
        invariant old(i) < i <= |toks|
        invariant ExprAt(toks, old(i)) == ExprTail(toks, n, i)
        decreases |toks| - i
      {
        var _ := Eat(Some("||"));
        var m := Term();
        if m.Failure? {
          return m;
        }
        n := Or(n, m.value);
      }
      return Success(n);
    }

    method Term() returns (r: Result<Node, ParseError>)
      requires i <= |toks|
      modifies this
      ensures i <= |toks|
      ensures TermAt(toks, old(i)) == Outcome(r, i)
      decreases |toks| - i, 0
    {
      var f := Factor();
      if f.Failure? {
        return f;
      }
      var n := f.value;
      while Peek() == Some("&&")
        invariant old(i) < i <= |toks|
        invariant TermAt(toks, old(i)) == TermTail(toks, n, i)
        decreases |toks| - i
      {
        var _ := Eat(Some("&&"));
        var m := Factor();
        if m.Failure? {
          return m;
        }
        n := And(n, m.value);
      }
      return Success(n);
    }

    method Factor() returns (r: Result<Node, ParseError>)
      requires i <= |toks|
      modifies this
      ensures i <= |toks|
      ensures FactorAt(toks, old(i)) == Outcome(r, i)
      decreases |toks| - i, -1
    {
      var t := Peek();
      if t == Some("!") {
        var _ := Eat(Some("!"));
        var a := Factor();
        if a.Failure? {
          return a;
        }
        return Success(Not(a.value));
      }
      if t == Some("(") {
        var _ := Eat(Some("("));
        var n := Expr();
        if n.Failure? {
          return n;
        }
        var close := Eat(Some(")"));
        if close.Failure? {
          return Failure(close.error);
        }
        return n;
      }
      if t.Some? && IsVarToken(t.value) {
        var name := Eat(None);
        return Success(Var(name.value));
      }
      return Failure(BadFactor(t));
    }
  }
}
