/** How the configuration-expression solver turns its input lines into a weighted MaxSAT
    problem: blank lines and `#` comments are dropped, each remaining line is tokenized,
    parsed and Tseitin-encoded into one shared encoder, the hard clauses are the encoder's
    clauses plus one unit clause per expression, and each named variable gets a soft clause
    asking it to be false, visited in name order. */
module SolverInput {
  import opened Wrappers
  import opened Text
  import opened ExprLexer
  import opened ExprParser
  import opened Tseitin

  // ---------------------------------------------------------------------------------------
  // The input filter

  /** A stripped line that is kept as an expression. */
  predicate Kept(s: string) {
    s != [] && !StartsWith(s, "#")
  }

  /** The expressions of the input: every line stripped, blank and `#` lines dropped. */
  function Exprs(lines: seq<string>): seq<string> {
    if lines == [] then []
    else
      var s := Strip(lines[|lines| - 1]);
      Exprs(lines[..|lines| - 1]) + (if Kept(s) then [s] else [])
  }

  method FilterExprs(lines: seq<string>) returns (exprs: seq<string>)
    ensures exprs == Exprs(lines)
  {
    exprs := [];
    for k := 0 to |lines|
      invariant exprs == Exprs(lines[..k])
    {
      assert lines[..k + 1][..k] == lines[..k];
      var s := Strip(lines[k]);
      if !(s == [] || StartsWith(s, "#")) {
        exprs := exprs + [s];
      }
    }
    assert lines[..|lines|] == lines;
  }

  /** Each expression comes from a stripped input line that is neither blank nor a
      comment. */
  lemma {:induction false} ExprLine(lines: seq<string>, e: string) returns (k: nat)
    requires e in Exprs(lines)
    ensures k < |lines| && Strip(lines[k]) == e && Kept(e)
  {
    var init := lines[..|lines| - 1];
    var last := Strip(lines[|lines| - 1]);
    assert Exprs(lines) == Exprs(init) + (if Kept(last) then [last] else []);
    if e in Exprs(init) {
      k := ExprLine(init, e);
      assert lines[k] == init[k];
    } else {
      k := |lines| - 1;
    }
  }

  /** Each stripped input line that is neither blank nor a comment is an expression. */
  lemma {:induction false} LineExpr(lines: seq<string>, k: nat)
    requires k < |lines| && Kept(Strip(lines[k]))
    ensures Strip(lines[k]) in Exprs(lines)
  {
    var init := lines[..|lines| - 1];
    var last := Strip(lines[|lines| - 1]);
    assert Exprs(lines) == Exprs(init) + (if Kept(last) then [last] else []);
    if k < |init| {
      assert init[k] == lines[k];
      LineExpr(init, k);
    }
  }

  /** An expression is exactly a stripped input line that is neither blank nor a comment. */
  lemma ExprsMembers(lines: seq<string>, e: string)
    ensures e in Exprs(lines) <==> exists k :: 0 <= k < |lines| && Strip(lines[k]) == e && Kept(e)
  {
    if e in Exprs(lines) {
      var k := ExprLine(lines, e);
    }
    if k :| 0 <= k < |lines| && Strip(lines[k]) == e && Kept(e) {
      LineExpr(lines, k);
    }
  }

  // ---------------------------------------------------------------------------------------
  // Building the problem

  /** Why no problem is built: no expressions (the program stops with status 1), or the
      tokenizer or the parser raised on an expression. */
  datatype BuildError = NoExpressions | BadToken(expr: string, pos: nat) | BadParse(expr: string, err: ParseError)

  /** The tree of one expression. */
  function ExprTree(e: string): Result<Node, BuildError> {
    match Lex(e)
    case LexError(p) => Failure(BadToken(e, p))
    case Tokens(toks) =>
      match Parse(toks)
      case Failure(err) => Failure(BadParse(e, err))
      case Success(n) => Success(n)
  }

  /** Encoding the expressions in order into one encoder: their top literals and the final
      state, or the first error raised. */
  function Run(exprs: seq<string>, st: Cnf): (r: Result<(seq<int>, Cnf), BuildError>)
    ensures r.Success? ==> |r.value.0| == |exprs|
    ensures r.Success? && WF(st) ==> WF(r.value.1) && Extends(st, r.value.1) && NewNamesBetween(st, r.value.1)
    decreases |exprs|
  {
    if exprs == [] then Success(([], st))
    else
      match ExprTree(exprs[0])
      case Failure(err) => Failure(err)
      case Success(n) =>
        var (y, st1) := Enc(n, st);
        match Run(exprs[1..], st1)
        case Failure(err) => Failure(err)
        case Success(rest) =>
          var r := Success(([y] + rest.0, rest.1));
          if WF(st) then EncWF(n, st); ExtendsTrans(st, st1, rest.1); r else r
  }

  /** `ys` in front of a run's top literals; an error stays the error. */
  function Prepend(ys: seq<int>, r: Result<(seq<int>, Cnf), BuildError>): Result<(seq<int>, Cnf), BuildError> {
    match r
    case Failure(e) => r
    case Success(p) => Success((ys + p.0, p.1))
  }

  lemma PrependAssoc(a: seq<int>, b: seq<int>, r: Result<(seq<int>, Cnf), BuildError>)
    ensures Prepend(a, Prepend(b, r)) == Prepend(a + b, r)
  {
    if r.Success? {
      assert a + (b + r.value.0) == (a + b) + r.value.0;
    }
  }

  /** The unit clauses `[top]`. */
  function Units(tops: seq<int>): seq<seq<int>> {
    seq(|tops|, k requires 0 <= k < |tops| => [tops[k]])
  }

  /** The names whose ids are below `v`, in id order. */
  function NamesUpTo(st: Cnf, v: int): seq<string>
    decreases v
  {
    if v <= 1 then [] else NamesUpTo(st, v - 1) + (if v - 1 in st.rev then [st.rev[v - 1]] else [])
  }

  lemma {:induction false} NamesUpToElems(st: Cnf, v: int)
    requires WF(st)
    ensures Elems(NamesUpTo(st, v)) == set x | x in st.varIds && st.varIds[x] < v
    decreases v
  {
    if v > 1 {
      NamesUpToElems(st, v - 1);
      var S := set x | x in st.varIds && st.varIds[x] < v;
      var T := set x | x in st.varIds && st.varIds[x] < v - 1;
      if v - 1 in st.rev {
        assert S == T + {st.rev[v - 1]};
      } else {
        assert S == T;
      }
    }
  }

  /** The named variables in ascending name order, the order in which the soft clauses are
      added and the assignment is read back. */
  function Names(st: Cnf): (r: seq<string>)
    requires WF(st)
    ensures StrictlySorted(r) && Elems(r) == st.varIds.Keys
  {
    NamesUpToElems(st, st.next);
    assert (set x | x in st.varIds && st.varIds[x] < st.next) == st.varIds.Keys;
    SortedUnique(NamesUpTo(st, st.next))
  }

  /** The MaxSAT problem: hard clauses, soft clauses with their weights, and the names and
      ids the assignment is read back with. */
  datatype Problem = Problem(hard: seq<seq<int>>, soft: seq<(seq<int>, int)>, names: seq<string>, ids: map<string, int>)

  /** One soft clause `[-id]` of weight 1 per name. */
  function Softs(names: seq<string>, ids: map<string, int>): seq<(seq<int>, int)>
    requires forall k :: 0 <= k < |names| ==> names[k] in ids
  {
    seq(|names|, k requires 0 <= k < |names| => ([-ids[names[k]]], 1))
  }

  function ProblemOf(tops: seq<int>, st: Cnf): Problem
    requires WF(st)
  {
    var names := Names(st);
    assert forall k :: 0 <= k < |names| ==> names[k] in Elems(names);
    Problem(st.clauses + Units(tops), Softs(names, st.varIds), names, st.varIds)
  }

  /** What the solver hands to MaxSAT for the given input lines. */
  function Build(lines: seq<string>): Result<Problem, BuildError> {
    var exprs := Exprs(lines);
    if exprs == [] then Failure(NoExpressions)
    else
      match Run(exprs, Init())
      case Failure(e) => Failure(e)
      case Success(r) => InitWF(); Success(ProblemOf(r.0, r.1))
  }

  /** The outcome of encoding every expression, as `Run` gives it. */
  function RunOutcome(r: Result<seq<int>, BuildError>, st: Cnf): Result<(seq<int>, Cnf), BuildError> {
    match r
    case Failure(e) => Failure(e)
    case Success(tops) => Success((tops, st))
  }

  /** The per-expression loop: tokenize, parse and encode each expression into one
      encoder, stopping at the first error. */
  method EncodeAll(exprs: seq<string>) returns (r: Result<seq<int>, BuildError>, ts: Encoder)
    ensures fresh(ts)
    ensures Run(exprs, Init()) == RunOutcome(r, ts.State())
  {
    ts := new Encoder();
    var tops: seq<int> := [];
    assert exprs[0..] == exprs;
    assert Run(exprs, Init()) == Prepend(tops, Run(exprs[0..], ts.State())) by {
      PrependNil(Run(exprs, Init()));
    }
    for k := 0 to |exprs|
      invariant Run(exprs, Init()) == Prepend(tops, Run(exprs[k..], ts.State()))
    {
      var e := exprs[k];
      var lexed := Tokenize(e);
      if lexed.LexError? {
        assert ExprTree(e) == Failure(BadToken(e, lexed.pos));
        RunStops(exprs, k, ts.State(), tops);
        return Failure(BadToken(e, lexed.pos)), ts;
      }
      var p := new Parser(lexed.toks);
      var ast := p.Parse();
      if ast.Failure? {
        assert ExprTree(e) == Failure(BadParse(e, ast.error));
        RunStops(exprs, k, ts.State(), tops);
        return Failure(BadParse(e, ast.error)), ts;
      }
      assert ExprTree(e) == Success(ast.value);
      ghost var before := ts.State();
      var top := ts.Encode(ast.value);
      RunStep(exprs, k, before, ast.value);
      PrependAssoc(tops, [top], Run(exprs[k + 1..], ts.State()));
      tops := tops + [top];
    }
    assert exprs[|exprs|..] == [] && tops + [] == tops;
    r := Success(tops);
  }

  /** An expression that does not give a tree ends the run with its error. */
  lemma RunStops(exprs: seq<string>, k: nat, st: Cnf, tops: seq<int>)
    requires k < |exprs| && ExprTree(exprs[k]).Failure?
    ensures Prepend(tops, Run(exprs[k..], st)) == Failure(ExprTree(exprs[k]).error)
  {
    assert exprs[k..][0] == exprs[k];
  }

  /** An expression that gives a tree contributes its top literal and hands the encoder on. */
  lemma RunStep(exprs: seq<string>, k: nat, st: Cnf, n: Node)
    requires k < |exprs| && ExprTree(exprs[k]) == Success(n)
    ensures Run(exprs[k..], st) == Prepend([Enc(n, st).0], Run(exprs[k + 1..], Enc(n, st).1))
  {
    assert exprs[k..][0] == exprs[k] && exprs[k..][1..] == exprs[k + 1..];
  }

  lemma PrependNil(r: Result<(seq<int>, Cnf), BuildError>)
    ensures Prepend([], r) == r
  {
    if r.Success? {
      assert [] + r.value.0 == r.value.0;
    }
  }

  /** The hard clauses: the encoder's clauses, then `[top]` for each expression. */
  method HardClauses(clauses: seq<seq<int>>, tops: seq<int>) returns (hard: seq<seq<int>>)
    ensures hard == clauses + Units(tops)
  {
    hard := clauses;
    for k := 0 to |tops|
      invariant hard == clauses + Units(tops[..k])
    {
      assert Units(tops[..k + 1]) == Units(tops[..k]) + [[tops[k]]];
      hard := hard + [[tops[k]]];
    }
    assert tops[..|tops|] == tops;
  }

  /** The soft clauses, one per name in the given order. */
  method SoftClauses(names: seq<string>, ids: map<string, int>) returns (soft: seq<(seq<int>, int)>)
    requires forall k :: 0 <= k < |names| ==> names[k] in ids
    ensures soft == Softs(names, ids)
  {
    soft := [];
    for k := 0 to |names|
      invariant soft == Softs(names[..k], ids)
    {
      soft := soft + [([-ids[names[k]]], 1)];
    }
    assert names[..|names|] == names;
  }

  /** The input filter, the per-expression pipeline and the building of the problem. */
  method BuildProblem(lines: seq<string>) returns (r: Result<Problem, BuildError>)
    ensures r == Build(lines)
  {
    var exprs := FilterExprs(lines);
    if |exprs| == 0 {
      return Failure(NoExpressions);
    }
    var tops, ts := EncodeAll(exprs);
    if tops.Failure? {
      return Failure(tops.error);
    }
    var st := ts.State();
    InitWF();
    var hard := HardClauses(ts.clauses, tops.value);
    var names := Names(st);
    assert forall k :: 0 <= k < |names| ==> names[k] in Elems(names);
    var soft := SoftClauses(names, ts.varIds);
    return Success(Problem(hard, soft, names, ts.varIds));
  }

  // ---------------------------------------------------------------------------------------
  // What the hard clauses mean

  /** A run that succeeds on a nonempty list encodes the first expression's tree and runs
      on with the rest. */
  lemma RunCons(exprs: seq<string>, st: Cnf)
    requires exprs != [] && Run(exprs, st).Success?
    ensures ExprTree(exprs[0]).Success?
    ensures var (y, st1) := Enc(ExprTree(exprs[0]).value, st);
      && Run(exprs[1..], st1).Success?
      && Run(exprs, st).value == ([y] + Run(exprs[1..], st1).value.0, Run(exprs[1..], st1).value.1)
  {
  }

  /** Every top literal is a positive id. */
  lemma {:induction false} RunTopsPositive(exprs: seq<string>, st: Cnf)
    requires WF(st) && Run(exprs, st).Success?
    ensures forall k :: 0 <= k < |exprs| ==> Run(exprs, st).value.0[k] >= 1
    decreases |exprs|
  {
    if exprs != [] {
      var n := ExprTree(exprs[0]).value;
      var st1 := Enc(n, st).1;
      RunCons(exprs, st);
      EncWF(n, st);
      RunTopsPositive(exprs[1..], st1);
    }
  }

  /** Each expression gives a tree and its top literal has the tree's value. */
  predicate TopsMean(exprs: seq<string>, tops: seq<int>, A: int -> bool, env: string -> bool) {
    forall k :: 0 <= k < |exprs| && k < |tops| ==>
      ExprTree(exprs[k]).Success? && A(tops[k]) == Eval(ExprTree(exprs[k]).value, env)
  }

  lemma TopsMeanCons(exprs: seq<string>, y: int, tops: seq<int>, A: int -> bool, env: string -> bool)
    requires exprs != [] && ExprTree(exprs[0]).Success? && A(y) == Eval(ExprTree(exprs[0]).value, env)
    requires TopsMean(exprs[1..], tops, A, env)
    ensures TopsMean(exprs, [y] + tops, A, env)
  {
    forall k | 1 <= k < |exprs| && k < |[y] + tops|
      ensures ExprTree(exprs[k]).Success? && A(([y] + tops)[k]) == Eval(ExprTree(exprs[k]).value, env)
    {
      assert exprs[k] == exprs[1..][k - 1];
    }
  }

  /** Soundness of a run: an assignment satisfying all of the final clauses gives each top
      literal the value of its expression, reading each variable from its id. */
  lemma {:induction false} RunSound(exprs: seq<string>, st: Cnf, A: int -> bool, ids: map<string, int>)
    requires WF(st) && Run(exprs, st).Success?
    requires SatAll(A, Run(exprs, st).value.1.clauses) && Covers(ids, Run(exprs, st).value.1)
    ensures TopsMean(exprs, Run(exprs, st).value.0, A, NameEnv(A, ids))
    decreases |exprs|
  {
    if exprs != [] {
      var n := ExprTree(exprs[0]).value;
      var (y, st1) := Enc(n, st);
      HeadSound(exprs, st, A, ids);
      RunSound(exprs[1..], st1, A, ids);
      TopsMeanCons(exprs, y, Run(exprs[1..], st1).value.0, A, NameEnv(A, ids));
    }
  }

  /** The first expression of a run gets its value, and the rest of the run meets the
      same conditions. */
  lemma HeadSound(exprs: seq<string>, st: Cnf, A: int -> bool, ids: map<string, int>)
    requires WF(st) && exprs != [] && Run(exprs, st).Success?
    requires SatAll(A, Run(exprs, st).value.1.clauses) && Covers(ids, Run(exprs, st).value.1)
    ensures ExprTree(exprs[0]).Success?
    ensures var n := ExprTree(exprs[0]).value; var (y, st1) := Enc(n, st);
      && A(y) == Eval(n, NameEnv(A, ids))
      && WF(st1) && Run(exprs[1..], st1).Success?
      && Run(exprs, st).value == ([y] + Run(exprs[1..], st1).value.0, Run(exprs[1..], st1).value.1)
  {
    var n := ExprTree(exprs[0]).value;
    var (y, st1) := Enc(n, st);
    RunCons(exprs, st);
    EncWF(n, st);
    var t := Run(exprs[1..], st1).value.1;
    SatPrefix(A, st1.clauses, t.clauses);
    EncSound(n, st, A, ids);
  }

  /** The gate variables of every expression of a run, each with the node it stands for. */
  function RunGates(exprs: seq<string>, st: Cnf): map<int, Node>
    decreases |exprs|
  {
    if exprs == [] || ExprTree(exprs[0]).Failure? then map[]
    else
      var n := ExprTree(exprs[0]).value;
      Gates(n, st) + RunGates(exprs[1..], Enc(n, st).1)
  }

  lemma {:induction false} RunGatesFresh(exprs: seq<string>, st: Cnf)
    requires WF(st) && Run(exprs, st).Success?
    ensures GatesIn(RunGates(exprs, st), st.next, Run(exprs, st).value.1)
    decreases |exprs|
  {
    if exprs != [] {
      var n := ExprTree(exprs[0]).value;
      var st1 := Enc(n, st).1;
      RunCons(exprs, st);
      EncWF(n, st);
      GatesFresh(n, st);
      RunGatesFresh(exprs[1..], st1);
      var t := Run(exprs, st).value.1;
      assert RunGates(exprs, st) == Gates(n, st) + RunGates(exprs[1..], st1);
      forall g | g in Gates(n, st) ensures g !in t.rev {
        assert g < st1.next && g !in st1.rev;
      }
    }
  }

  predicate AllTrue(A: int -> bool, tops: seq<int>) {
    forall k :: 0 <= k < |tops| ==> A(tops[k])
  }

  lemma AllTrueCons(A: int -> bool, y: int, tops: seq<int>)
    requires A(y) && AllTrue(A, tops)
    ensures AllTrue(A, [y] + tops)
  {
    forall k | 1 <= k < |tops| + 1 ensures A(([y] + tops)[k]) {
      assert ([y] + tops)[k] == tops[k - 1];
    }
  }

  /** Completeness of a run: an assignment that sets the variables from `env` and every
      gate to its node's value satisfies all clauses the run added, and when `env` makes
      every expression true it makes every top literal true. */
  lemma {:induction false} RunComplete(exprs: seq<string>, st: Cnf, A: int -> bool, env: string -> bool)
    requires WF(st) && Run(exprs, st).Success?
    requires Consistent(A, env, Run(exprs, st).value.1, RunGates(exprs, st))
    requires forall k :: 0 <= k < |exprs| && ExprTree(exprs[k]).Success? ==> Eval(ExprTree(exprs[k]).value, env)
    ensures var (tops, t) := Run(exprs, st).value;
      SatAll(A, t.clauses[|st.clauses|..]) && AllTrue(A, tops)
    decreases |exprs|
  {
    var (tops, t) := Run(exprs, st).value;
    if exprs == [] {
      assert t.clauses[|st.clauses|..] == [];
    } else {
      var n := ExprTree(exprs[0]).value;
      var (y, st1) := Enc(n, st);
      RunCons(exprs, st);
      EncWF(n, st);
      HeadComplete(exprs, st, A, env);
      forall k | 0 <= k < |exprs[1..]| && ExprTree(exprs[1..][k]).Success?
        ensures Eval(ExprTree(exprs[1..][k]).value, env)
      {
        assert exprs[1..][k] == exprs[k + 1];
      }
      RunComplete(exprs[1..], st1, A, env);
      assert Eval(n, env);
      AllTrueCons(A, y, Run(exprs[1..], st1).value.0);
      SuffixTwice(st.clauses, st1.clauses, t.clauses);
      SatAppend(A, st1.clauses[|st.clauses|..], t.clauses[|st1.clauses|..]);
    }
  }

  /** The first expression of a run is encoded completely, and the assignment stays
      consistent with the rest of the run. */
  lemma HeadComplete(exprs: seq<string>, st: Cnf, A: int -> bool, env: string -> bool)
    requires WF(st) && exprs != [] && Run(exprs, st).Success?
    requires Consistent(A, env, Run(exprs, st).value.1, RunGates(exprs, st))
    ensures ExprTree(exprs[0]).Success?
    ensures var n := ExprTree(exprs[0]).value; var (y, st1) := Enc(n, st);
      && SatAll(A, Added(n, st)) && A(y) == Eval(n, env)
      && Consistent(A, env, Run(exprs[1..], st1).value.1, RunGates(exprs[1..], st1))
  {
    var n := ExprTree(exprs[0]).value;
    var (y, st1) := Enc(n, st);
    var t := Run(exprs, st).value.1;
    RunCons(exprs, st);
    EncWF(n, st);
    GatesFresh(n, st);
    RunGatesFresh(exprs[1..], st1);
    assert RunGates(exprs, st) == Gates(n, st) + RunGates(exprs[1..], st1);
    ConsistentSub(A, env, t, RunGates(exprs, st), st1, Gates(n, st));
    ConsistentSub(A, env, t, RunGates(exprs, st), t, RunGates(exprs[1..], st1));
    EncComplete(n, st, A, env);
  }

  /** The unit clause of a positive literal holds exactly when the literal is true. */
  lemma UnitsSat(A: int -> bool, tops: seq<int>)
    requires forall k :: 0 <= k < |tops| ==> tops[k] >= 1
    ensures SatAll(A, Units(tops)) <==> AllTrue(A, tops)
  {
    if SatAll(A, Units(tops)) {
      forall k | 0 <= k < |tops| ensures A(tops[k]) {
        assert Units(tops)[k] in Units(tops);
        assert SatClause(A, [tops[k]]);
      }
    }
    if AllTrue(A, tops) {
      forall c | c in Units(tops) ensures SatClause(A, c) {
        var k :| 0 <= k < |tops| && Units(tops)[k] == c;
        assert LitVal(A, c[0]);
      }
    }
  }

  /** Every model of the hard clauses makes every expression of the input true, reading
      each variable from its id. */
  lemma ProblemSound(lines: seq<string>, p: Problem, A: int -> bool)
    requires Build(lines) == Success(p) && SatAll(A, p.hard)
    ensures forall e :: e in Exprs(lines) ==>
      ExprTree(e).Success? && Eval(ExprTree(e).value, NameEnv(A, p.ids))
  {
    var exprs := Exprs(lines);
    var (tops, t) := Run(exprs, Init()).value;
    InitWF();
    assert p.hard == t.clauses + Units(tops) && p.ids == t.varIds;
    SatAppend(A, t.clauses, Units(tops));
    RunTopsPositive(exprs, Init());
    UnitsSat(A, tops);
    RunSound(exprs, Init(), A, p.ids);
    forall e | e in exprs
      ensures ExprTree(e).Success? && Eval(ExprTree(e).value, NameEnv(A, p.ids))
    {
      var k :| 0 <= k < |exprs| && exprs[k] == e;
    }
  }

  /** An assignment of the ids built from `env`: gates take their node's value and named
      ids their name's value. */
  function Witness(env: string -> bool, t: Cnf, gates: map<int, Node>): int -> bool {
    v => if v in gates then Eval(gates[v], env) else if v in t.rev then env(t.rev[v]) else false
  }

  /** When some assignment of the names makes every expression true, the hard clauses have
      a model that agrees with it on every named id. */
  lemma ProblemComplete(lines: seq<string>, p: Problem, env: string -> bool)
    requires Build(lines) == Success(p)
    requires forall e :: e in Exprs(lines) && ExprTree(e).Success? ==> Eval(ExprTree(e).value, env)
    ensures exists A: int -> bool :: SatAll(A, p.hard) && forall x :: x in p.ids ==> A(p.ids[x]) == env(x)
  {
    var exprs := Exprs(lines);
    var (tops, t) := Run(exprs, Init()).value;
    InitWF();
    var G := RunGates(exprs, Init());
    RunGatesFresh(exprs, Init());
    var W := Witness(env, t, G);
    assert Consistent(W, env, t, G) by {
      forall x | x in t.varIds ensures W(t.varIds[x]) == env(x) {
        assert t.varIds[x] in t.rev && t.varIds[x] !in G;
      }
    }
    RunComplete(exprs, Init(), W, env);
    assert t.clauses[|Init().clauses|..] == t.clauses;
    RunTopsPositive(exprs, Init());
    UnitsSat(W, tops);
    SatAppend(W, t.clauses, Units(tops));
    assert p.hard == t.clauses + Units(tops) && p.ids == t.varIds;
  }
}
