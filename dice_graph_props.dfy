/** What the dependency graph means: an edge `a -> b` is present exactly when the Kconfig
    tree relates `a` and `b` in one of the five ways `_add_symbol_dependencies` looks at,
    and the kind an edge keeps always names one of those relationships (a later edge
    between the same two nodes overwrites the kind of an earlier one). */
module DiceGraphProps {
  import opened Wrappers
  import opened DiceKconfig
  import opened DiceGraph

  /** Symbol `s` relates `a` and `b` the way an edge of `kind` from `a` to `b` records. */
  predicate JustifiedBy(s: Symbol, a: string, b: string, kind: EdgeKind) {
    match kind
    case DependsOn => s.name == b && SymItem(a, false) in s.directDep
    case Select => s.name == a && exists l :: l in s.selects && l.target == b
    case SelectCondition => s.name == b && exists l :: l in s.selects && SymItem(a, false) in l.cond
    case Imply => s.name == a && exists l :: l in s.implies && l.target == b
    case ChoiceMember => s.name == b && s.choice == Some(a)
  }

  /** Some defined symbol of `k` relates `a` and `b` that way. */
  predicate Justified(k: Kconfig, a: string, b: string, kind: EdgeKind) {
    exists s :: s in k.syms && JustifiedBy(s, a, b, kind)
  }

  predicate KindsOk(k: Kconfig, g: Graph) {
    forall e :: e in g.kinds ==> Justified(k, e.0, e.1, g.kinds[e])
  }

  lemma AddEdgeOk(k: Kconfig, g: Graph, a: string, b: string, kind: EdgeKind)
    requires KindsOk(k, g) && Justified(k, a, b, kind)
    ensures KindsOk(k, AddEdge(g, a, b, kind))
  {
  }

  lemma {:induction false} ItemEdgesOk(k: Kconfig, g: Graph, items: seq<Item>, target: string, kind: EdgeKind)
    requires KindsOk(k, g)
    requires forall i :: i in items && i.SymItem? && !i.isConstant ==> Justified(k, i.name, target, kind)
    ensures KindsOk(k, ItemEdges(g, items, target, kind))
  {
    if items != [] {
      var front := items[..|items| - 1];
      ItemEdgesOk(k, g, front, target, kind);
      var i := items[|items| - 1];
      if i.SymItem? && !i.isConstant {
        AddEdgeOk(k, ItemEdges(g, front, target, kind), i.name, target, kind);
      }
    }
  }

  lemma {:induction false} SelectEdgesOk(k: Kconfig, g: Graph, s: Symbol, links: seq<Link>)
    requires KindsOk(k, g) && s in k.syms
    requires forall l :: l in links ==> l in s.selects
    ensures KindsOk(k, SelectEdges(g, s.name, links))
  {
    if links != [] {
      var front := links[..|links| - 1];
      var l := links[|links| - 1];
      SelectEdgesOk(k, g, s, front);
      var g1 := AddEdge(SelectEdges(g, s.name, front), s.name, l.target, Select);
      assert JustifiedBy(s, s.name, l.target, Select);
      forall i | i in l.cond && i.SymItem? && !i.isConstant
        ensures Justified(k, i.name, s.name, SelectCondition)
      {
        assert SymItem(i.name, false) in l.cond;
        assert JustifiedBy(s, i.name, s.name, SelectCondition);
      }
      ItemEdgesOk(k, g1, l.cond, s.name, SelectCondition);
    }
  }

  lemma {:induction false} ImplyEdgesOk(k: Kconfig, g: Graph, s: Symbol, links: seq<Link>)
    requires KindsOk(k, g) && s in k.syms
    requires forall l :: l in links ==> l in s.implies
    ensures KindsOk(k, ImplyEdges(g, s.name, links))
  {
    if links != [] {
      var front := links[..|links| - 1];
      var l := links[|links| - 1];
      ImplyEdgesOk(k, g, s, front);
      assert JustifiedBy(s, s.name, l.target, Imply);
    }
  }

  lemma SymbolEdgesOk(k: Kconfig, g: Graph, s: Symbol)
    requires KindsOk(k, g) && s in k.syms
    ensures KindsOk(k, SymbolEdges(g, s))
  {
    forall i | i in s.directDep && i.SymItem? && !i.isConstant
      ensures Justified(k, i.name, s.name, DependsOn)
    {
      assert SymItem(i.name, false) in s.directDep;
      assert JustifiedBy(s, i.name, s.name, DependsOn);
    }
    ItemEdgesOk(k, g, s.directDep, s.name, DependsOn);
    var g1 := ItemEdges(g, s.directDep, s.name, DependsOn);
    SelectEdgesOk(k, g1, s, s.selects);
    var g2 := SelectEdges(g1, s.name, s.selects);
    ImplyEdgesOk(k, g2, s, s.implies);
    if s.choice.Some? {
      assert JustifiedBy(s, s.choice.value, s.name, ChoiceMember);
    }
  }

  lemma {:induction false} AllSymbolEdgesOk(k: Kconfig, g: Graph, syms: seq<Symbol>)
    requires KindsOk(k, g)
    requires forall s :: s in syms ==> s in k.syms
    ensures KindsOk(k, AllSymbolEdges(g, syms))
  {
    if syms != [] {
      AllSymbolEdgesOk(k, g, syms[..|syms| - 1]);
      SymbolEdgesOk(k, AllSymbolEdges(g, syms[..|syms| - 1]), syms[|syms| - 1]);
    }
  }

  lemma {:induction false} NodesAddNoEdges(g: Graph, syms: seq<Symbol>, choices: seq<Choice>)
    ensures ChoiceNodes(SymbolNodes(g, syms), choices).kinds == g.kinds
  {
    if choices != [] {
      NodesAddNoEdges(g, syms, choices[..|choices| - 1]);
    } else if syms != [] {
      NodesAddNoEdges(g, syms[..|syms| - 1], []);
    }
  }

  /** Every edge of the graph records a relationship of the Kconfig tree, under the kind it
      kept. */
  lemma GraphEdgesJustified(k: Kconfig, a: string, b: string)
    requires (a, b) in GraphOf(k).kinds
    ensures Justified(k, a, b, GraphOf(k).kinds[(a, b)])
  {
    NodesAddNoEdges(EmptyGraph, k.syms, k.choices);
    AllSymbolEdgesOk(k, ChoiceNodes(SymbolNodes(EmptyGraph, k.syms), k.choices), k.syms);
  }

  lemma {:induction false} ItemEdgesHas(g: Graph, items: seq<Item>, target: string, kind: EdgeKind, a: string)
    ensures SymItem(a, false) in items ==> (a, target) in ItemEdges(g, items, target, kind).kinds
  {
    if items != [] {
      ItemEdgesHas(g, items[..|items| - 1], target, kind, a);
      if SymItem(a, false) in items[..|items| - 1] {
      } else if SymItem(a, false) in items {
        assert items[|items| - 1] == SymItem(a, false);
      }
    }
  }

  lemma {:induction false} SelectEdgesHas(g: Graph, name: string, links: seq<Link>, a: string, b: string)
    ensures (exists l :: l in links && l.target == b) && a == name ==> (a, b) in SelectEdges(g, name, links).kinds
    ensures (exists l :: l in links && SymItem(a, false) in l.cond) && b == name ==>
      (a, b) in SelectEdges(g, name, links).kinds
  {
    if links != [] {
      var front := links[..|links| - 1];
      var l := links[|links| - 1];
      SelectEdgesHas(g, name, front, a, b);
      var g1 := AddEdge(SelectEdges(g, name, front), name, l.target, Select);
      ItemEdgesHas(g1, l.cond, name, SelectCondition, a);
      forall l' | l' in links
        ensures l' in front || l' == l
      {
        var i :| 0 <= i < |links| && links[i] == l';
        if i < |links| - 1 {
          assert front[i] == l';
        }
      }
    }
  }

  lemma {:induction false} ImplyEdgesHas(g: Graph, name: string, links: seq<Link>, b: string)
    ensures (exists l :: l in links && l.target == b) ==> (name, b) in ImplyEdges(g, name, links).kinds
  {
    if links != [] {
      var front := links[..|links| - 1];
      ImplyEdgesHas(g, name, front, b);
      forall l' | l' in links
        ensures l' in front || l' == links[|links| - 1]
      {
        var i :| 0 <= i < |links| && links[i] == l';
        if i < |links| - 1 {
          assert front[i] == l';
        }
      }
    }
  }

  /** The edges one symbol contributes are present after its turn. */
  lemma SymbolEdgesHas(g: Graph, s: Symbol, a: string, b: string, kind: EdgeKind)
    requires JustifiedBy(s, a, b, kind)
    ensures (a, b) in SymbolEdges(g, s).kinds
  {
    var g1 := ItemEdges(g, s.directDep, s.name, DependsOn);
    var g2 := SelectEdges(g1, s.name, s.selects);
    match kind
    case DependsOn => ItemEdgesHas(g, s.directDep, s.name, DependsOn, a);
    case Select => SelectEdgesHas(g1, s.name, s.selects, a, b);
    case SelectCondition => SelectEdgesHas(g1, s.name, s.selects, a, b);
    case Imply => ImplyEdgesHas(g2, s.name, s.implies, b);
    case ChoiceMember =>
  }

  lemma {:induction false} AllSymbolEdgesHas(g: Graph, syms: seq<Symbol>, a: string, b: string, kind: EdgeKind)
    requires exists s :: s in syms && JustifiedBy(s, a, b, kind)
    ensures (a, b) in AllSymbolEdges(g, syms).kinds
  {
    var front := syms[..|syms| - 1];
    var last := syms[|syms| - 1];
    if JustifiedBy(last, a, b, kind) {
      SymbolEdgesHas(AllSymbolEdges(g, front), last, a, b, kind);
    } else {
      var s :| s in syms && JustifiedBy(s, a, b, kind);
      var i :| 0 <= i < |syms| && syms[i] == s;
      assert front[i] == s;
      AllSymbolEdgesHas(g, front, a, b, kind);
    }
  }

  /** Every relationship of the Kconfig tree gives an edge (perhaps under another kind). */
  lemma GraphEdgesComplete(k: Kconfig, a: string, b: string, kind: EdgeKind)
    requires Justified(k, a, b, kind)
    ensures (a, b) in GraphOf(k).kinds
    ensures b in Dependents(GraphOf(k), a) && a in Dependencies(GraphOf(k), b)
  {
    AllSymbolEdgesHas(ChoiceNodes(SymbolNodes(EmptyGraph, k.syms), k.choices), k.syms, a, b, kind);
    assert GraphOk(GraphOf(k));
  }

  /** Only edge ends, defined symbols and choices are nodes. */
  lemma {:induction false} ItemEdgesNodes(g: Graph, items: seq<Item>, target: string, kind: EdgeKind, n: string)
    requires n in ItemEdges(g, items, target, kind).nodes
    ensures n in g.nodes || exists e :: e in ItemEdges(g, items, target, kind).kinds && (e.0 == n || e.1 == n)
  {
    if items != [] {
      var front := ItemEdges(g, items[..|items| - 1], target, kind);
      var i := items[|items| - 1];
      if i.SymItem? && !i.isConstant && n in {i.name, target} {
        assert (i.name, target) in ItemEdges(g, items, target, kind).kinds;
      } else if n !in g.nodes {
        ItemEdgesNodes(g, items[..|items| - 1], target, kind, n);
        var e :| e in front.kinds && (e.0 == n || e.1 == n);
        assert e in ItemEdges(g, items, target, kind).kinds;
      }
    }
  }

  lemma {:induction false} SelectEdgesNodes(g: Graph, name: string, links: seq<Link>, n: string)
    requires n in SelectEdges(g, name, links).nodes
    ensures n in g.nodes || exists e :: e in SelectEdges(g, name, links).kinds && (e.0 == n || e.1 == n)
  {
    if links != [] {
      var front := SelectEdges(g, name, links[..|links| - 1]);
      var l := links[|links| - 1];
      var g1 := AddEdge(front, name, l.target, Select);
      var r := ItemEdges(g1, l.cond, name, SelectCondition);
      ItemEdgesNodes(g1, l.cond, name, SelectCondition, n);
      if n !in g1.nodes {
      } else if n in {name, l.target} {
        assert (name, l.target) in r.kinds;
      } else if n !in g.nodes {
        SelectEdgesNodes(g, name, links[..|links| - 1], n);
        var e :| e in front.kinds && (e.0 == n || e.1 == n);
        assert e in r.kinds;
      }
    }
  }

  lemma {:induction false} ImplyEdgesNodes(g: Graph, name: string, links: seq<Link>, n: string)
    requires n in ImplyEdges(g, name, links).nodes
    ensures n in g.nodes || exists e :: e in ImplyEdges(g, name, links).kinds && (e.0 == n || e.1 == n)
  {
    if links != [] {
      var front := ImplyEdges(g, name, links[..|links| - 1]);
      var t := links[|links| - 1].target;
      if n in {name, t} {
        assert (name, t) in ImplyEdges(g, name, links).kinds;
      } else if n !in g.nodes {
        ImplyEdgesNodes(g, name, links[..|links| - 1], n);
        var e :| e in front.kinds && (e.0 == n || e.1 == n);
        assert e in ImplyEdges(g, name, links).kinds;
      }
    }
  }

  lemma SymbolEdgesNodes(g: Graph, s: Symbol, n: string)
    requires n in SymbolEdges(g, s).nodes
    ensures n in g.nodes || exists e :: e in SymbolEdges(g, s).kinds && (e.0 == n || e.1 == n)
  {
    var g1 := ItemEdges(g, s.directDep, s.name, DependsOn);
    var g2 := SelectEdges(g1, s.name, s.selects);
    var g3 := ImplyEdges(g2, s.name, s.implies);
    var r := SymbolEdges(g, s);
    if s.choice.Some? && n in {s.choice.value, s.name} {
      assert (s.choice.value, s.name) in r.kinds;
    } else if n in g3.nodes && n !in g.nodes {
      ImplyEdgesNodes(g2, s.name, s.implies, n);
      if n in g2.nodes {
        SelectEdgesNodes(g1, s.name, s.selects, n);
        if n in g1.nodes {
          ItemEdgesNodes(g, s.directDep, s.name, DependsOn, n);
        }
      }
    }
  }

  lemma {:induction false} AllSymbolEdgesNodes(g: Graph, syms: seq<Symbol>, n: string)
    requires n in AllSymbolEdges(g, syms).nodes
    ensures n in g.nodes || exists e :: e in AllSymbolEdges(g, syms).kinds && (e.0 == n || e.1 == n)
  {
    if syms != [] {
      var front := AllSymbolEdges(g, syms[..|syms| - 1]);
      SymbolEdgesNodes(front, syms[|syms| - 1], n);
      if n in front.nodes && n !in g.nodes {
        AllSymbolEdgesNodes(g, syms[..|syms| - 1], n);
      }
    }
  }

  lemma {:induction false} NamedNodes(g: Graph, syms: seq<Symbol>, choices: seq<Choice>, n: string)
    ensures n in ChoiceNodes(SymbolNodes(g, syms), choices).nodes <==>
      n in g.nodes || (exists s :: s in syms && s.name == n) || (exists c :: c in choices && c.id == n)
  {
    if choices != [] {
      var front := choices[..|choices| - 1];
      NamedNodes(g, syms, front, n);
      if exists c :: c in choices && c.id == n {
        var c :| c in choices && c.id == n;
        var i :| 0 <= i < |choices| && choices[i] == c;
        if i < |choices| - 1 {
          assert front[i] == c;
        }
      }
    } else if syms != [] {
      var front := syms[..|syms| - 1];
      NamedNodes(g, front, [], n);
      if exists s :: s in syms && s.name == n {
        var s :| s in syms && s.name == n;
        var i :| 0 <= i < |syms| && syms[i] == s;
        if i < |syms| - 1 {
          assert front[i] == s;
        }
      }
    }
  }

  /** The nodes are exactly the defined symbols, the choices and the ends of edges (the
      targets of selects and implies and the symbols of conditions, defined or not). */
  lemma GraphNodes(k: Kconfig, n: string)
    ensures n in GraphOf(k).nodes <==>
      (exists s :: s in k.syms && s.name == n) || (exists c :: c in k.choices && c.id == n)
      || exists e :: e in GraphOf(k).kinds && (e.0 == n || e.1 == n)
  {
    var g0 := ChoiceNodes(SymbolNodes(EmptyGraph, k.syms), k.choices);
    NamedNodes(EmptyGraph, k.syms, k.choices, n);
    if n in GraphOf(k).nodes && n !in g0.nodes {
      AllSymbolEdgesNodes(g0, k.syms, n);
    }
    assert GraphOk(GraphOf(k));
  }

  /** `_build_selected_by_map`: `x` is recorded as selecting `t` exactly when some defined
      symbol named `x` has a `select t`; each such pair is also an edge of the graph. */
  lemma {:induction false} SelectedByMeansSelect(syms: seq<Symbol>, x: string, t: string)
    ensures (t in SelectedByOf(syms) && x in SelectedByOf(syms)[t]) <==>
      exists s, l :: s in syms && l in s.selects && s.name == x && l.target == t
  {
    if syms != [] {
      var front := syms[..|syms| - 1];
      var last := syms[|syms| - 1];
      SelectedByMeansSelect(front, x, t);
      AddSelectorsMeans(SelectedByOf(front), last.name, last.selects, x, t);
      if exists s, l :: s in syms && l in s.selects && s.name == x && l.target == t {
        var s, l :| s in syms && l in s.selects && s.name == x && l.target == t;
        var i :| 0 <= i < |syms| && syms[i] == s;
        if i < |syms| - 1 {
          assert front[i] == s;
        }
      }
    }
  }

  lemma {:induction false} AddSelectorsMeans(sb: map<string, set<string>>, name: string, links: seq<Link>, x: string, t: string)
    ensures (t in AddSelectors(sb, name, links) && x in AddSelectors(sb, name, links)[t]) <==>
      (t in sb && x in sb[t]) || (x == name && exists l :: l in links && l.target == t)
  {
    if links != [] {
      var front := links[..|links| - 1];
      AddSelectorsMeans(sb, name, front, x, t);
      if exists l :: l in links && l.target == t {
        var l :| l in links && l.target == t;
        var i :| 0 <= i < |links| && links[i] == l;
        if i < |links| - 1 {
          assert front[i] == l;
        }
      }
    }
  }

  /** Every pair of the select map is an edge of the dependency graph. */
  lemma SelectedByIsEdge(k: Kconfig, x: string, t: string)
    requires t in SelectedByOf(k.syms) && x in SelectedByOf(k.syms)[t]
    ensures x in Dependencies(GraphOf(k), t)
  {
    SelectedByMeansSelect(k.syms, x, t);
    var s, l :| s in k.syms && l in s.selects && s.name == x && l.target == t;
    assert JustifiedBy(s, x, t, Select);
    GraphEdgesComplete(k, x, t, Select);
  }
}
