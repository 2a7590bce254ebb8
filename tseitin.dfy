/** The Tseitin encoder of the configuration-expression solver. Named variables and gate
    variables take their ids from one counter that starts at 1; every `!`, `&&` and `||`
    node gets a fresh gate variable and the clauses that make it equal to its node.
    What each of the encoder's methods computes is given by a function on the encoder's
    state, and the properties are proved about those functions. */
module Tseitin {
  import opened ExprLexer
  import opened ExprParser

  /** The encoder's state: `var_ids`, `rev`, `_next` and `clauses`. */
  datatype Cnf = Cnf(varIds: map<string, int>, rev: map<int, string>, next: int, clauses: seq<seq<int>>)

  function Init(): Cnf {
    Cnf(map[], map[], 1, [])
  }

  /** Ids are handed out from 1 below `next`, `rev` is the inverse of `varIds`, and every
      literal of every clause is a nonzero id (or its negation) below `next`. */
  predicate WF(st: Cnf) {
    && st.next >= 1
    && (forall x :: x in st.varIds ==>
          1 <= st.varIds[x] < st.next && st.varIds[x] in st.rev && st.rev[st.varIds[x]] == x)
    && (forall v :: v in st.rev ==> st.rev[v] in st.varIds && st.varIds[st.rev[v]] == v)
    && (forall c, l :: c in st.clauses && l in c ==> l != 0 && -st.next < l < st.next)
  }

  /** `t` is a later state than `s`: no id is taken back, no name changes its id, and the
      clauses of `s` are still the first clauses. */
  predicate Extends(s: Cnf, t: Cnf) {
    && s.next <= t.next
    && (forall x :: x in s.varIds ==> x in t.varIds && t.varIds[x] == s.varIds[x])
    && (forall v :: v in s.rev ==> v in t.rev && t.rev[v] == s.rev[v])
    && s.clauses <= t.clauses
  }

  /** Every named id that `t` has and `s` had not was handed out between them. */
  predicate NewNamesBetween(s: Cnf, t: Cnf) {
    forall v :: v in t.rev && v !in s.rev ==> s.next <= v < t.next
  }

  lemma ExtendsTrans(s: Cnf, t: Cnf, u: Cnf)
    requires Extends(s, t) && Extends(t, u)
    ensures Extends(s, u)
  {
    assert s.clauses <= u.clauses by {
      assert s.clauses == u.clauses[..|s.clauses|] by {
        assert u.clauses[..|t.clauses|] == t.clauses;
      }
    }
  }

  // ---------------------------------------------------------------------------------------
  // What the encoder computes

  /** `lit(name)`: the id of `name`, handing out the next id on its first use. */
  function LitSpec(name: string, st: Cnf): (r: (int, Cnf))
    ensures name in r.1.varIds && r.0 == r.1.varIds[name]
    ensures r.1.varIds.Keys == st.varIds.Keys + {name}
    ensures WF(st) ==> Extends(st, r.1)
    ensures NewNamesBetween(st, r.1) && r.1.clauses == st.clauses
    ensures name in st.varIds ==> r.1 == st
    ensures name !in st.varIds ==> r.0 == st.next && r.1.next == st.next + 1
  {
    if name in st.varIds then (st.varIds[name], st)
    else
      var vid := st.next;
      (vid, st.(next := vid + 1, varIds := st.varIds[name := vid], rev := st.rev[vid := name]))
  }

  /** `fresh()`: the next id, which no name has. */
  function FreshSpec(st: Cnf): (r: (int, Cnf))
    ensures WF(st) ==> r.0 !in st.rev && r.0 >= 1 && (forall x :: x in st.varIds ==> st.varIds[x] < r.0)
    ensures r.1.next == r.0 + 1 && r.0 == st.next
    ensures r.1.varIds == st.varIds && r.1.rev == st.rev && r.1.clauses == st.clauses
  {
    (st.next, st.(next := st.next + 1))
  }

  /** The clauses that make `y` equal to `!a`, `a && b` and `a || b`. */
  function NotGate(y: int, a: int): seq<seq<int>> { [[-y, -a], [y, a]] }
  function AndGate(y: int, a: int, b: int): seq<seq<int>> { [[-y, a], [-y, b], [y, -a, -b]] }
  function OrGate(y: int, a: int, b: int): seq<seq<int>> { [[-y, a, b], [y, -a], [y, -b]] }

  /** `encode(node)`: the literal standing for `node` and the state after encoding it. It
      only appends clauses, as many as the node's gates call for, and takes no id back. */
  function Enc(n: Node, st: Cnf): (r: (int, Cnf))
    ensures st.clauses <= r.1.clauses && |r.1.clauses| == |st.clauses| + ClauseCount(n)
    ensures st.next <= r.1.next
    decreases n
  {
    match n
    case Var(x) => LitSpec(x, st)
    case Not(a) =>
      var (ya, s1) := Enc(a, st);
      var (y, s2) := FreshSpec(s1);
      (y, s2.(clauses := s2.clauses + NotGate(y, ya)))
    case And(a, b) =>
      var (ya, s1) := Enc(a, st);
      var (yb, s2) := Enc(b, s1);
      var (y, s3) := FreshSpec(s2);
      (y, s3.(clauses := s3.clauses + AndGate(y, ya, yb)))
    case Or(a, b) =>
      var (ya, s1) := Enc(a, st);
      var (yb, s2) := Enc(b, s1);
      var (y, s3) := FreshSpec(s2);
      (y, s3.(clauses := s3.clauses + OrGate(y, ya, yb)))
  }

  // ---------------------------------------------------------------------------------------
  // The encoder object

  class Encoder {
    var varIds: map<string, int>
    var rev: map<int, string>
    var next: int
    var clauses: seq<seq<int>>

    function State(): Cnf
      reads this
    {
      Cnf(varIds, rev, next, clauses)
    }

    constructor ()
      ensures State() == Init()
    {
      varIds := map[];
      rev := map[];
      next := 1;
      clauses := [];
    }

    method Lit(name: string) returns (r: int)
      modifies this
      ensures (r, State()) == LitSpec(name, old(State()))
    {
      if name !in varIds {
        var vid := next;
        next := next + 1;
        varIds := varIds[name := vid];
        rev := rev[vid := name];
      }
      r := varIds[name];
    }

    method Fresh() returns (r: int)
      modifies this
      ensures (r, State()) == FreshSpec(old(State()))
    {
      r := next;
      next := next + 1;
    }

    method Encode(n: Node) returns (y: int)
      modifies this
      ensures (y, State()) == Enc(n, old(State()))
      decreases n
    {
      match n
      case Var(x) =>
        y := Lit(x);
      case Not(a0) =>
        var a := Encode(a0);
        y := Fresh();
        clauses := clauses + NotGate(y, a);
      case And(a0, b0) =>
        var a := Encode(a0);
        var b := Encode(b0);
        y := Fresh();
        clauses := clauses + AndGate(y, a, b);
      case Or(a0, b0) =>
        var a := Encode(a0);
        var b := Encode(b0);
        y := Fresh();
        clauses := clauses + OrGate(y, a, b);
    }
  }

  // ---------------------------------------------------------------------------------------
  // Ids

  /** The variables of a node. */
  function Vars(n: Node): set<string> {
    match n
    case Var(x) => {x}
    case Not(a) => Vars(a)
    case And(a, b) => Vars(a) + Vars(b)
    case Or(a, b) => Vars(a) + Vars(b)
  }

  /** How many clauses a node's gates add: none for a variable, two for `!`, three for `&&`
      and `||`. */
  function ClauseCount(n: Node): nat {
    match n
    case Var(_) => 0
    case Not(a) => 2 + ClauseCount(a)
    case And(a, b) => 3 + ClauseCount(a) + ClauseCount(b)
    case Or(a, b) => 3 + ClauseCount(a) + ClauseCount(b)
  }

  lemma InitWF()
    ensures WF(Init())
  {
  }

  /** `lit` keeps the state well formed; distinct names get distinct ids and `rev` maps each
      id back to its name. */
  lemma LitWF(name: string, st: Cnf)
    requires WF(st)
    ensures var (r, t) := LitSpec(name, st);
      WF(t) && 1 <= r < t.next && t.rev[r] == name
      && forall x :: x in t.varIds && x != name ==> t.varIds[x] != r
  {
  }

  /** In a well-formed state no two names share an id. */
  lemma IdsInjective(st: Cnf, x: string, z: string)
    requires WF(st) && x in st.varIds && z in st.varIds && st.varIds[x] == st.varIds[z]
    ensures x == z
  {
    assert x == st.rev[st.varIds[x]];
  }

  /** Every literal of `g` is a nonzero id at most `bound`, or its negation. */
  predicate LitsUpTo(g: seq<seq<int>>, bound: int) {
    forall c, l :: c in g && l in c ==> l != 0 && -bound <= l <= bound
  }

  lemma NotGateLits(y: int, a: int)
    requires 1 <= a < y
    ensures LitsUpTo(NotGate(y, a), y)
  {
  }

  lemma AndGateLits(y: int, a: int, b: int)
    requires 1 <= a < y && 1 <= b < y
    ensures LitsUpTo(AndGate(y, a, b), y) && LitsUpTo(OrGate(y, a, b), y)
  {
  }

  /** Taking a fresh gate id and appending its clauses keeps the state well formed. */
  lemma GateWF(s: Cnf, g: seq<seq<int>>)
    requires WF(s) && LitsUpTo(g, s.next)
    ensures var t := FreshSpec(s).1.(clauses := s.clauses + g);
      WF(t) && Extends(s, t) && NewNamesBetween(s, t)
  {
    var t := FreshSpec(s).1.(clauses := s.clauses + g);
    forall c, l | c in t.clauses && l in c
      ensures l != 0 && -t.next < l < t.next
    {
      if c !in s.clauses {
        assert c in g;
      }
    }
  }

  /** What encoding `n` from `st` keeps and gives: a well-formed state that extends `st`, a
      positive id below the new counter, and an id for every variable of `n`. */
  predicate EncOk(n: Node, st: Cnf, y: int, t: Cnf) {
    && WF(t) && 1 <= y < t.next
    && Extends(st, t) && NewNamesBetween(st, t)
    && Vars(n) <= t.varIds.Keys
  }

  /** Encoding keeps the state well formed, returns a positive id below the new counter,
      hands out no id twice, and gives every variable of the node an id. */
  lemma {:induction false} EncWF(n: Node, st: Cnf)
    requires WF(st)
    ensures EncOk(n, st, Enc(n, st).0, Enc(n, st).1)
    decreases n, 1
  {
    match n
    case Var(x) =>
      LitWF(x, st);
    case Not(a) =>
      NotWF(a, st);
    case _ =>
      BinaryWF(n, st);
  }

  lemma {:induction false} NotWF(a: Node, st: Cnf)
    requires WF(st)
    ensures EncOk(Not(a), st, Enc(Not(a), st).0, Enc(Not(a), st).1)
    decreases Not(a), 0
  {
    var (ya, s1) := Enc(a, st);
    EncWF(a, st);
    var y := s1.next;
    var t := FreshSpec(s1).1.(clauses := s1.clauses + NotGate(y, ya));
    assert Enc(Not(a), st) == (y, t);
    NotGateLits(y, ya);
    GateWF(s1, NotGate(y, ya));
    ExtendsTrans(st, s1, t);
  }

  lemma {:induction false} BinaryWF(n: Node, st: Cnf)
    requires n.And? || n.Or?
    requires WF(st)
    ensures EncOk(n, st, Enc(n, st).0, Enc(n, st).1)
    decreases n, 0
  {
    var (ya, s1) := Enc(n.a, st);
    EncWF(n.a, st);
    var (yb, s2) := Enc(n.b, s1);
    EncWF(n.b, s1);
    var y := s2.next;
    var g := if n.And? then AndGate(y, ya, yb) else OrGate(y, ya, yb);
    var t := FreshSpec(s2).1.(clauses := s2.clauses + g);
    assert Enc(n, st) == (y, t);
    AndGateLits(y, ya, yb);
    GateWF(s2, g);
    ExtendsTrans(st, s1, s2);
    ExtendsTrans(st, s2, t);
  }

  // ---------------------------------------------------------------------------------------
  // Meaning of the clauses

  function Eval(n: Node, env: string -> bool): bool {
    match n
    case Var(x) => env(x)
    case Not(a) => !Eval(a, env)
    case And(a, b) => Eval(a, env) && Eval(b, env)
    case Or(a, b) => Eval(a, env) || Eval(b, env)
  }

  /** The value of a literal: a positive id is the variable, a negative one its negation. */
  function LitVal(A: int -> bool, l: int): bool {
    if l >= 0 then A(l) else !A(-l)
  }

  predicate SatClause(A: int -> bool, c: seq<int>) {
    exists l :: l in c && LitVal(A, l)
  }

  predicate SatAll(A: int -> bool, cs: seq<seq<int>>) {
    forall c :: c in cs ==> SatClause(A, c)
  }

  lemma SatPrefix(A: int -> bool, cs: seq<seq<int>>, ds: seq<seq<int>>)
    requires SatAll(A, ds) && cs <= ds
    ensures SatAll(A, cs)
  {
    forall c | c in cs ensures SatClause(A, c) {
      var k :| 0 <= k < |cs| && cs[k] == c;
      assert ds[k] == c;
    }
  }

  lemma SatAppend(A: int -> bool, cs: seq<seq<int>>, ds: seq<seq<int>>)
    ensures SatAll(A, cs + ds) <==> SatAll(A, cs) && SatAll(A, ds)
  {
    if SatAll(A, cs) && SatAll(A, ds) {
      forall c | c in cs + ds ensures SatClause(A, c) {
        if c !in cs {
          assert c in ds;
        }
      }
    }
  }

  /** The clauses of `y <-> !a` hold exactly when `y` has the value of `!a`. */
  lemma NotGateIff(A: int -> bool, y: int, a: int)
    requires y >= 1 && a >= 1
    ensures SatAll(A, NotGate(y, a)) <==> A(y) == !A(a)
  {
    assert SatAll(A, NotGate(y, a)) <==> SatClause(A, [-y, -a]) && SatClause(A, [y, a]);
    assert SatClause(A, [-y, -a]) <==> LitVal(A, -y) || LitVal(A, -a);
    assert SatClause(A, [y, a]) <==> LitVal(A, y) || LitVal(A, a);
  }

  /** The clauses of `y <-> a && b` hold exactly when `y` has the value of `a && b`. */
  lemma AndGateIff(A: int -> bool, y: int, a: int, b: int)
    requires y >= 1 && a >= 1 && b >= 1
    ensures SatAll(A, AndGate(y, a, b)) <==> A(y) == (A(a) && A(b))
  {
    assert SatAll(A, AndGate(y, a, b)) <==>
      SatClause(A, [-y, a]) && SatClause(A, [-y, b]) && SatClause(A, [y, -a, -b]);
    assert SatClause(A, [-y, a]) <==> LitVal(A, -y) || LitVal(A, a);
    assert SatClause(A, [-y, b]) <==> LitVal(A, -y) || LitVal(A, b);
    assert SatClause(A, [y, -a, -b]) <==> LitVal(A, y) || LitVal(A, -a) || LitVal(A, -b);
  }

  /** The clauses of `y <-> a || b` hold exactly when `y` has the value of `a || b`. */
  lemma OrGateIff(A: int -> bool, y: int, a: int, b: int)
    requires y >= 1 && a >= 1 && b >= 1
    ensures SatAll(A, OrGate(y, a, b)) <==> A(y) == (A(a) || A(b))
  {
    assert SatAll(A, OrGate(y, a, b)) <==>
      SatClause(A, [-y, a, b]) && SatClause(A, [y, -a]) && SatClause(A, [y, -b]);
    assert SatClause(A, [-y, a, b]) <==> LitVal(A, -y) || LitVal(A, a) || LitVal(A, b);
    assert SatClause(A, [y, -a]) <==> LitVal(A, y) || LitVal(A, -a);
    assert SatClause(A, [y, -b]) <==> LitVal(A, y) || LitVal(A, -b);
  }

  /** The values an assignment gives the names that have ids in `ids`. */
  function NameEnv(A: int -> bool, ids: map<string, int>): string -> bool {
    x => x in ids && A(ids[x])
  }

  /** `ids` gives every name of `t` the id `t` gives it. */
  predicate Covers(ids: map<string, int>, t: Cnf) {
    forall x :: x in t.varIds ==> x in ids && ids[x] == t.varIds[x]
  }

  /** Soundness: an assignment that satisfies every clause gives the returned literal the
      value of the node, reading each variable from its id. */
  lemma {:induction false} EncSound(n: Node, st: Cnf, A: int -> bool, ids: map<string, int>)
    requires WF(st)
    requires SatAll(A, Enc(n, st).1.clauses) && Covers(ids, Enc(n, st).1)
    ensures A(Enc(n, st).0) == Eval(n, NameEnv(A, ids))
    decreases n, 1
  {
    match n
    case Var(x) =>
    case Not(a) =>
      NotSound(a, st, A, ids);
    case _ =>
      BinarySound(n, st, A, ids);
  }

  lemma {:induction false} NotSound(a: Node, st: Cnf, A: int -> bool, ids: map<string, int>)
    requires WF(st)
    requires SatAll(A, Enc(Not(a), st).1.clauses) && Covers(ids, Enc(Not(a), st).1)
    ensures A(Enc(Not(a), st).0) == !Eval(a, NameEnv(A, ids))
    decreases Not(a), 0
  {
    var (ya, s1) := Enc(a, st);
    EncWF(a, st);
    var y := s1.next;
    var t := FreshSpec(s1).1.(clauses := s1.clauses + NotGate(y, ya));
    assert Enc(Not(a), st) == (y, t);
    SatAppend(A, s1.clauses, NotGate(y, ya));
    NotGateIff(A, y, ya);
    EncSound(a, st, A, ids);
  }

  lemma {:induction false} BinarySound(n: Node, st: Cnf, A: int -> bool, ids: map<string, int>)
    requires n.And? || n.Or?
    requires WF(st)
    requires SatAll(A, Enc(n, st).1.clauses) && Covers(ids, Enc(n, st).1)
    ensures A(Enc(n, st).0) == Eval(n, NameEnv(A, ids))
    decreases n, 0
  {
    var (ya, s1) := Enc(n.a, st);
    EncWF(n.a, st);
    var (yb, s2) := Enc(n.b, s1);
    EncWF(n.b, s1);
    var y := s2.next;
    var g := if n.And? then AndGate(y, ya, yb) else OrGate(y, ya, yb);
    var t := FreshSpec(s2).1.(clauses := s2.clauses + g);
    assert Enc(n, st) == (y, t);
    SatAppend(A, s2.clauses, g);
    SatPrefix(A, s1.clauses, s2.clauses);
    ExtendsTrans(s1, s2, t);
    EncSound(n.a, st, A, ids);
    EncSound(n.b, s1, A, ids);
    if n.And? {
      AndGateIff(A, y, ya, yb);
    } else {
      OrGateIff(A, y, ya, yb);
    }
  }

  /** The gate variables encoding a node hands out, each with the node it stands for. */
  function Gates(n: Node, st: Cnf): map<int, Node>
    decreases n
  {
    match n
    case Var(_) => map[]
    case Not(a) => Gates(a, st)[Enc(n, st).0 := n]
    case And(a, b) => (Gates(a, st) + Gates(b, Enc(a, st).1))[Enc(n, st).0 := n]
    case Or(a, b) => (Gates(a, st) + Gates(b, Enc(a, st).1))[Enc(n, st).0 := n]
  }

  /** Gate ids are handed out during the encoding and none of them is a named id. */
  predicate GatesIn(gates: map<int, Node>, lo: int, t: Cnf) {
    forall g :: g in gates ==> lo <= g < t.next && g !in t.rev
  }

  lemma {:induction false} GatesFresh(n: Node, st: Cnf)
    requires WF(st)
    ensures GatesIn(Gates(n, st), st.next, Enc(n, st).1)
    decreases n, 1
  {
    match n
    case Var(_) =>
    case Not(a) =>
      NotGatesFresh(a, st);
    case _ =>
      BinaryGatesFresh(n, st);
  }

  lemma {:induction false} NotGatesFresh(a: Node, st: Cnf)
    requires WF(st)
    ensures GatesIn(Gates(Not(a), st), st.next, Enc(Not(a), st).1)
    decreases Not(a), 0
  {
    var (ya, s1) := Enc(a, st);
    EncWF(a, st);
    GatesFresh(a, st);
    var y := s1.next;
    assert Enc(Not(a), st) == (y, FreshSpec(s1).1.(clauses := s1.clauses + NotGate(y, ya)));
    assert Gates(Not(a), st) == Gates(a, st)[y := Not(a)];
  }

  lemma {:induction false} BinaryGatesFresh(n: Node, st: Cnf)
    requires n.And? || n.Or?
    requires WF(st)
    ensures GatesIn(Gates(n, st), st.next, Enc(n, st).1)
    decreases n, 0
  {
    var (ya, s1) := Enc(n.a, st);
    var (yb, s2) := Enc(n.b, s1);
    EncWF(n.a, st);
    EncWF(n.b, s1);
    GatesFresh(n.a, st);
    GatesFresh(n.b, s1);
    var y := s2.next;
    var g := if n.And? then AndGate(y, ya, yb) else OrGate(y, ya, yb);
    assert Enc(n, st) == (y, FreshSpec(s2).1.(clauses := s2.clauses + g));
    assert Gates(n, st) == (Gates(n.a, st) + Gates(n.b, s1))[y := n];
  }

  /** An assignment that gives every name of `t` its value under `env` and every gate the
      value of its node under `env`. */
  predicate Consistent(A: int -> bool, env: string -> bool, t: Cnf, gates: map<int, Node>) {
    && (forall x :: x in t.varIds ==> A(t.varIds[x]) == env(x))
    && (forall g :: g in gates ==> A(g) == Eval(gates[g], env))
  }

  /** The clauses encoding `n` from `st` added. */
  function Added(n: Node, st: Cnf): seq<seq<int>> {
    Enc(n, st).1.clauses[|st.clauses|..]
  }

  lemma SuffixAppend(p: seq<seq<int>>, q: seq<seq<int>>, g: seq<seq<int>>)
    requires p <= q
    ensures (q + g)[|p|..] == q[|p|..] + g
  {
  }

  lemma SuffixTwice(p: seq<seq<int>>, q: seq<seq<int>>, r: seq<seq<int>>)
    requires p <= q <= r
    ensures r[|p|..] == q[|p|..] + r[|q|..]
  {
    assert r == q + r[|q|..];
  }

  /** Completeness: an assignment that sets the variables from `env` and each gate to its
      node's value satisfies every clause the encoding added and gives the returned literal
      the node's value. */
  lemma {:induction false} EncComplete(n: Node, st: Cnf, A: int -> bool, env: string -> bool)
    requires WF(st)
    requires Consistent(A, env, Enc(n, st).1, Gates(n, st))
    ensures SatAll(A, Added(n, st)) && A(Enc(n, st).0) == Eval(n, env)
    decreases n, 1
  {
    match n
    case Var(x) =>
      assert Added(n, st) == [];
    case Not(a) =>
      NotComplete(a, st, A, env);
    case _ =>
      BinaryComplete(n, st, A, env);
  }

  lemma {:induction false} NotComplete(a: Node, st: Cnf, A: int -> bool, env: string -> bool)
    requires WF(st)
    requires Consistent(A, env, Enc(Not(a), st).1, Gates(Not(a), st))
    ensures SatAll(A, Added(Not(a), st)) && A(Enc(Not(a), st).0) == !Eval(a, env)
    decreases Not(a), 0
  {
    var (ya, s1) := Enc(a, st);
    EncWF(a, st);
    GatesFresh(a, st);
    var y := s1.next;
    var t := FreshSpec(s1).1.(clauses := s1.clauses + NotGate(y, ya));
    assert Enc(Not(a), st) == (y, t);
    assert Gates(Not(a), st) == Gates(a, st)[y := Not(a)];
    EncComplete(a, st, A, env);
    SuffixAppend(st.clauses, s1.clauses, NotGate(y, ya));
    NotGateIff(A, y, ya);
    SatAppend(A, Added(a, st), NotGate(y, ya));
  }

  lemma {:induction false} BinaryComplete(n: Node, st: Cnf, A: int -> bool, env: string -> bool)
    requires n.And? || n.Or?
    requires WF(st)
    requires Consistent(A, env, Enc(n, st).1, Gates(n, st))
    ensures SatAll(A, Added(n, st)) && A(Enc(n, st).0) == Eval(n, env)
    decreases n, 0
  {
    var (ya, s1) := Enc(n.a, st);
    var (yb, s2) := Enc(n.b, s1);
    EncWF(n.a, st);
    EncWF(n.b, s1);
    OperandsConsistent(n, st, A, env);
    EncComplete(n.a, st, A, env);
    EncComplete(n.b, s1, A, env);
    var y := s2.next;
    var g := if n.And? then AndGate(y, ya, yb) else OrGate(y, ya, yb);
    assert Enc(n, st) == (y, FreshSpec(s2).1.(clauses := s2.clauses + g));
    SuffixTwice(st.clauses, s1.clauses, s2.clauses);
    SuffixAppend(st.clauses, s2.clauses, g);
    SatAppend(A, Added(n.a, st), Added(n.b, s1));
    SatAppend(A, Added(n.a, st) + Added(n.b, s1), g);
    if n.And? {
      AndGateIff(A, y, ya, yb);
    } else {
      OrGateIff(A, y, ya, yb);
    }
  }

  /** An assignment consistent with a binary node's encoding is consistent with each
      operand's. */
  lemma OperandsConsistent(n: Node, st: Cnf, A: int -> bool, env: string -> bool)
    requires n.And? || n.Or?
    requires WF(st)
    requires Consistent(A, env, Enc(n, st).1, Gates(n, st))
    ensures Consistent(A, env, Enc(n.a, st).1, Gates(n.a, st))
    ensures Consistent(A, env, Enc(n.b, Enc(n.a, st).1).1, Gates(n.b, Enc(n.a, st).1))
  {
    var (ya, s1) := Enc(n.a, st);
    var (yb, s2) := Enc(n.b, s1);
    EncWF(n.a, st);
    EncWF(n.b, s1);
    GatesFresh(n.a, st);
    GatesFresh(n.b, s1);
    var y := s2.next;
    var g := if n.And? then AndGate(y, ya, yb) else OrGate(y, ya, yb);
    var t := FreshSpec(s2).1.(clauses := s2.clauses + g);
    assert Enc(n, st) == (y, t);
    var G := Gates(n, st);
    assert G == (Gates(n.a, st) + Gates(n.b, s1))[y := n];
    UnionLeft(Gates(n.a, st), Gates(n.b, s1), y, n, s1.next);
    ExtendsTrans(s1, s2, t);
    ConsistentSub(A, env, t, G, s1, Gates(n.a, st));
    ConsistentSub(A, env, t, G, s2, Gates(n.b, s1));
  }

  /** The left part of a union stays in it when its keys lie below every key of the right
      part and below the key added last. */
  lemma UnionLeft(L: map<int, Node>, R: map<int, Node>, y: int, n: Node, bound: int)
    requires forall k :: k in L ==> k < bound
    requires forall k :: k in R ==> bound <= k < y
    requires bound <= y
    ensures var G := (L + R)[y := n];
      (forall k :: k in L ==> k in G && G[k] == L[k]) && (forall k :: k in R ==> k in G && G[k] == R[k])
  {
  }

  lemma ConsistentSub(A: int -> bool, env: string -> bool, t: Cnf, G: map<int, Node>, s: Cnf, H: map<int, Node>)
    requires Consistent(A, env, t, G) && Extends(s, t)
    requires forall k :: k in H ==> k in G && G[k] == H[k]
    ensures Consistent(A, env, s, H)
  {
  }
}
