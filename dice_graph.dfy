/** `DependencyAnalyzer`: the directed dependency graph over Kconfig symbols and choices,
    its reverse map, the choice groups and the select map, with the dependents and
    dependencies queries. networkx's `DiGraph` is modelled by the value `Graph`: a node set
    and one kind per edge, where adding an edge again overwrites its kind. */
module DiceGraph {
  import opened Wrappers
  import opened DiceKconfig

  datatype EdgeKind = DependsOn | Select | SelectCondition | Imply | ChoiceMember

  datatype Graph = Graph(nodes: set<string>, kinds: map<(string, string), EdgeKind>)

  /** networkx keeps both ends of every edge among the nodes. */
  predicate GraphOk(g: Graph) {
    forall e :: e in g.kinds ==> e.0 in g.nodes && e.1 in g.nodes
  }

  const EmptyGraph: Graph := Graph({}, map[])

  /** `G.add_node(n)`. */
  function AddNode(g: Graph, n: string): (r: Graph)
    ensures GraphOk(g) ==> GraphOk(r)
  {
    g.(nodes := g.nodes + {n})
  }

  /** `G.add_edge(a, b, type=kind)`: both ends become nodes, the kind is (re)set. */
  function AddEdge(g: Graph, a: string, b: string, kind: EdgeKind): (r: Graph)
    ensures GraphOk(g) ==> GraphOk(r)
  {
    Graph(g.nodes + {a, b}, g.kinds[(a, b) := kind])
  }

  /** One edge `item -> target` for each non-constant symbol among `items`. */
  function ItemEdges(g: Graph, items: seq<Item>, target: string, kind: EdgeKind): (r: Graph)
    ensures GraphOk(g) ==> GraphOk(r)
    ensures g.nodes <= r.nodes && g.kinds.Keys <= r.kinds.Keys
  {
    if items == [] then g
    else
      var front := ItemEdges(g, items[..|items| - 1], target, kind);
      var i := items[|items| - 1];
      if i.SymItem? && !i.isConstant then AddEdge(front, i.name, target, kind) else front
  }

  /** For each `select T if C` of `name`: `name -> T` (select), then `c -> name`
      (select_condition) for each symbol `c` of `C`. */
  function SelectEdges(g: Graph, name: string, links: seq<Link>): (r: Graph)
    ensures GraphOk(g) ==> GraphOk(r)
    ensures g.nodes <= r.nodes && g.kinds.Keys <= r.kinds.Keys
  {
    if links == [] then g
    else
      var front := SelectEdges(g, name, links[..|links| - 1]);
      var l := links[|links| - 1];
      ItemEdges(AddEdge(front, name, l.target, Select), l.cond, name, SelectCondition)
  }

  /** For each `imply T` of `name`: `name -> T` (imply). */
  function ImplyEdges(g: Graph, name: string, links: seq<Link>): (r: Graph)
    ensures GraphOk(g) ==> GraphOk(r)
    ensures g.nodes <= r.nodes && g.kinds.Keys <= r.kinds.Keys
  {
    if links == [] then g
    else AddEdge(ImplyEdges(g, name, links[..|links| - 1]), name, links[|links| - 1].target, Imply)
  }

  /** `_add_symbol_dependencies`: depends-on, select, imply and choice-member edges of one
      symbol, in that order. */
  function SymbolEdges(g: Graph, s: Symbol): (r: Graph)
    ensures GraphOk(g) ==> GraphOk(r)
    ensures g.nodes <= r.nodes && g.kinds.Keys <= r.kinds.Keys
  {
    var g1 := ItemEdges(g, s.directDep, s.name, DependsOn);
    var g2 := SelectEdges(g1, s.name, s.selects);
    var g3 := ImplyEdges(g2, s.name, s.implies);
    if s.choice.Some? then AddEdge(g3, s.choice.value, s.name, ChoiceMember) else g3
  }

  function SymbolNodes(g: Graph, syms: seq<Symbol>): (r: Graph)
    ensures GraphOk(g) ==> GraphOk(r)
  {
    if syms == [] then g else AddNode(SymbolNodes(g, syms[..|syms| - 1]), syms[|syms| - 1].name)
  }

  function ChoiceNodes(g: Graph, choices: seq<Choice>): (r: Graph)
    ensures GraphOk(g) ==> GraphOk(r)
  {
    if choices == [] then g else AddNode(ChoiceNodes(g, choices[..|choices| - 1]), choices[|choices| - 1].id)
  }

  function AllSymbolEdges(g: Graph, syms: seq<Symbol>): (r: Graph)
    ensures GraphOk(g) ==> GraphOk(r)
    ensures g.nodes <= r.nodes && g.kinds.Keys <= r.kinds.Keys
  {
    if syms == [] then g else SymbolEdges(AllSymbolEdges(g, syms[..|syms| - 1]), syms[|syms| - 1])
  }

  /** `_build_dependency_graph`: symbol nodes, choice nodes, then every symbol's edges. */
  function GraphOf(k: Kconfig): (g: Graph)
    ensures GraphOk(g)
  {
    AllSymbolEdges(ChoiceNodes(SymbolNodes(EmptyGraph, k.syms), k.choices), k.syms)
  }

  method AddItemEdges(g0: Graph, items: seq<Item>, target: string, kind: EdgeKind) returns (g: Graph)
    ensures g == ItemEdges(g0, items, target, kind)
  {
    g := g0;
    for k := 0 to |items|
      invariant g == ItemEdges(g0, items[..k], target, kind)
    {
      assert items[..k + 1][..k] == items[..k];
      var i := items[k];
      if i.SymItem? && !i.isConstant {
        g := AddEdge(g, i.name, target, kind);
      }
    }
    assert items[..|items|] == items;
  }

  /** `_add_symbol_dependencies`, loop by loop. */
  method AddSymbolDependencies(g0: Graph, s: Symbol) returns (g: Graph)
    ensures g == SymbolEdges(g0, s)
  {
    g := AddItemEdges(g0, s.directDep, s.name, DependsOn);
    ghost var g1 := g;
    for k := 0 to |s.selects|
      invariant g == SelectEdges(g1, s.name, s.selects[..k])
    {
      assert s.selects[..k + 1][..k] == s.selects[..k];
      g := AddEdge(g, s.name, s.selects[k].target, Select);
      g := AddItemEdges(g, s.selects[k].cond, s.name, SelectCondition);
    }
    assert s.selects[..|s.selects|] == s.selects;
    ghost var g2 := g;
    for k := 0 to |s.implies|
      invariant g == ImplyEdges(g2, s.name, s.implies[..k])
    {
      assert s.implies[..k + 1][..k] == s.implies[..k];
      g := AddEdge(g, s.name, s.implies[k].target, Imply);
    }
    assert s.implies[..|s.implies|] == s.implies;
    if s.choice.Some? {
      g := AddEdge(g, s.choice.value, s.name, ChoiceMember);
    }
  }

  /** `_build_dependency_graph`. */
  method BuildDependencyGraph(k: Kconfig) returns (g: Graph)
    ensures g == GraphOf(k)
  {
    g := EmptyGraph;
    for i := 0 to |k.syms|
      invariant g == SymbolNodes(EmptyGraph, k.syms[..i])
    {
      assert k.syms[..i + 1][..i] == k.syms[..i];
      g := AddNode(g, k.syms[i].name);
    }
    assert k.syms[..|k.syms|] == k.syms;
    ghost var g1 := g;
    for i := 0 to |k.choices|
      invariant g == ChoiceNodes(g1, k.choices[..i])
    {
      assert k.choices[..i + 1][..i] == k.choices[..i];
      g := AddNode(g, k.choices[i].id);
    }
    assert k.choices[..|k.choices|] == k.choices;
    ghost var g2 := g;
    for i := 0 to |k.syms|
      invariant g == AllSymbolEdges(g2, k.syms[..i])
    {
      assert k.syms[..i + 1][..i] == k.syms[..i];
      g := AddSymbolDependencies(g, k.syms[i]);
    }
    assert k.syms[..|k.syms|] == k.syms;
  }

  /** `get_dependents`: the successors of a node, none for a name that is not a node. */
  function Dependents(g: Graph, s: string): set<string> {
    if s !in g.nodes then {} else set e | e in g.kinds && e.0 == s :: e.1
  }

  /** `get_dependencies`: the predecessors of a node, none for a name that is not a node. */
  function Dependencies(g: Graph, s: string): set<string> {
    if s !in g.nodes then {} else set e | e in g.kinds && e.1 == s :: e.0
  }

  /** A node depends on another exactly when the other is among its dependents. */
  lemma DependentsDependencies(g: Graph, a: string, b: string)
    requires GraphOk(g)
    ensures b in Dependents(g, a) <==> a in Dependencies(g, b)
  {
    if b in Dependents(g, a) {
      var e :| e in g.kinds && e.0 == a && e.1 == b;
      assert a in Dependencies(g, b);
    }
    if a in Dependencies(g, b) {
      var e :| e in g.kinds && e.0 == a && e.1 == b;
      assert b in Dependents(g, a);
    }
  }

  /** The dependents of a node are nodes. */
  lemma DependentsAreNodes(g: Graph, s: string)
    requires GraphOk(g)
    ensures Dependents(g, s) <= g.nodes
  {
  }

  /** The sources of the edges among `edges` that end at `n`. */
  function SourcesInto(edges: set<(string, string)>, n: string): set<string> {
    set e | e in edges && e.1 == n :: e.0
  }

  /** `_build_reverse_dependencies`: every node to the set of its predecessors. */
  function ReverseDeps(g: Graph): map<string, set<string>> {
    map n | n in g.nodes :: SourcesInto(g.kinds.Keys, n)
  }

  lemma SourcesIntoStep(done: set<(string, string)>, e: (string, string), n: string)
    ensures SourcesInto(done + {e}, n) == SourcesInto(done, n) + (if e.1 == n then {e.0} else {})
  {
  }

  /** The first loop of `_build_reverse_dependencies`: an empty set for every node. */
  method EmptyReverse(nodes: set<string>) returns (rev: map<string, set<string>>)
    ensures rev.Keys == nodes
    ensures forall n :: n in rev ==> rev[n] == {}
  {
    rev := map[];
    var todo := nodes;
    while todo != {}
      invariant rev.Keys + todo == nodes
      invariant forall n :: n in rev ==> rev[n] == {}
      decreases |todo|
    {
      var n :| n in todo;
      rev := rev[n := {}];
      todo := todo - {n};
    }
  }

  /** The second loop of `_build_reverse_dependencies`: each edge adds its source to the
      set of its target. */
  method AddReverseEdges(edges: set<(string, string)>, rev0: map<string, set<string>>)
    returns (rev: map<string, set<string>>)
    requires forall e :: e in edges ==> e.1 in rev0
    ensures ReverseUpTo(rev, rev0, edges)
  {
    rev := rev0;
    var todo := edges;
    while todo != {}
      invariant todo <= edges
      invariant ReverseUpTo(rev, rev0, edges - todo)
      decreases |todo|
    {
      var e :| e in todo;
      ReverseLoopStep(rev, rev0, edges, todo, e);
      rev := rev[e.1 := rev[e.1] + {e.0}];
      todo := todo - {e};
    }
    assert edges - todo == edges;
  }

  /** `rev` is `rev0` with the sources of the edges in `done` added. */
  predicate ReverseUpTo(rev: map<string, set<string>>, rev0: map<string, set<string>>, done: set<(string, string)>) {
    rev.Keys == rev0.Keys && forall n :: n in rev ==> rev[n] == rev0[n] + SourcesInto(done, n)
  }

  lemma ReverseStep(rev: map<string, set<string>>, rev0: map<string, set<string>>, done: set<(string, string)>, e: (string, string))
    requires ReverseUpTo(rev, rev0, done) && e.1 in rev
    ensures ReverseUpTo(rev[e.1 := rev[e.1] + {e.0}], rev0, done + {e})
  {
    forall n | n in rev
      ensures SourcesInto(done + {e}, n) == SourcesInto(done, n) + (if e.1 == n then {e.0} else {})
    {
      SourcesIntoStep(done, e, n);
    }
  }

  /** One iteration of the loop over the edges. */
  lemma ReverseLoopStep(rev: map<string, set<string>>, rev0: map<string, set<string>>,
                        edges: set<(string, string)>, todo: set<(string, string)>, e: (string, string))
    requires forall e :: e in edges ==> e.1 in rev0
    requires todo <= edges && ReverseUpTo(rev, rev0, edges - todo) && e in todo
    ensures e.1 in rev && todo - {e} <= edges && |todo - {e}| < |todo|
    ensures ReverseUpTo(rev[e.1 := rev[e.1] + {e.0}], rev0, edges - (todo - {e}))
  {
    ReverseStep(rev, rev0, edges - todo, e);
    assert edges - (todo - {e}) == (edges - todo) + {e};
  }

  /** `_build_reverse_dependencies`. */
  method BuildReverseDependencies(g: Graph) returns (rev: map<string, set<string>>)
    requires GraphOk(g)
    ensures rev == ReverseDeps(g)
  {
    var empty := EmptyReverse(g.nodes);
    rev := AddReverseEdges(g.kinds.Keys, empty);
    assert rev.Keys == ReverseDeps(g).Keys;
    forall n | n in rev
      ensures rev[n] == ReverseDeps(g)[n]
    {
    }
  }

  /** The reverse map gives every node exactly its dependencies. */
  lemma ReverseDepsAreDependencies(g: Graph, n: string)
    requires n in g.nodes
    ensures n in ReverseDeps(g) && ReverseDeps(g)[n] == Dependencies(g, n)
  {
  }

  /** `_extract_choice_groups`: each choice id to its member symbols (a later choice with
      the same id wins). */
  function ChoiceGroups(choices: seq<Choice>): map<string, seq<string>> {
    if choices == [] then map[]
    else ChoiceGroups(choices[..|choices| - 1])[choices[|choices| - 1].id := choices[|choices| - 1].syms]
  }

  method ExtractChoiceGroups(choices: seq<Choice>) returns (groups: map<string, seq<string>>)
    ensures groups == ChoiceGroups(choices)
  {
    groups := map[];
    for i := 0 to |choices|
      invariant groups == ChoiceGroups(choices[..i])
    {
      assert choices[..i + 1][..i] == choices[..i];
      groups := groups[choices[i].id := choices[i].syms];
    }
    assert choices[..|choices|] == choices;
  }

  /** Each choice id of a choice group is the id of a choice with those members. */
  lemma {:induction false} ChoiceGroupsFrom(choices: seq<Choice>, id: string)
    ensures id in ChoiceGroups(choices) <==> exists i :: 0 <= i < |choices| && choices[i].id == id
    ensures id in ChoiceGroups(choices) ==>
      exists i :: 0 <= i < |choices| && choices[i] == Choice(id, ChoiceGroups(choices)[id])
  {
    if choices != [] {
      var front := choices[..|choices| - 1];
      ChoiceGroupsFrom(front, id);
      if exists i :: 0 <= i < |front| && front[i].id == id {
        var i :| 0 <= i < |front| && front[i].id == id;
        assert choices[i] == front[i];
      }
      if id in ChoiceGroups(front) && id != choices[|choices| - 1].id {
        var i :| 0 <= i < |front| && front[i] == Choice(id, ChoiceGroups(front)[id]);
        assert choices[i] == front[i];
      }
    }
  }

  /** `_build_selected_by_map`: each select target to the names of the symbols selecting it. */
  function SelectedByOf(syms: seq<Symbol>): map<string, set<string>> {
    if syms == [] then map[]
    else AddSelectors(SelectedByOf(syms[..|syms| - 1]), syms[|syms| - 1].name, syms[|syms| - 1].selects)
  }

  function AddSelectors(sb: map<string, set<string>>, name: string, links: seq<Link>): map<string, set<string>> {
    if links == [] then sb
    else
      var front := AddSelectors(sb, name, links[..|links| - 1]);
      var t := links[|links| - 1].target;
      front[t := (if t in front then front[t] else {}) + {name}]
  }

  method BuildSelectedByMap(syms: seq<Symbol>) returns (sb: map<string, set<string>>)
    ensures sb == SelectedByOf(syms)
  {
    sb := map[];
    for i := 0 to |syms|
      invariant sb == SelectedByOf(syms[..i])
    {
      assert syms[..i + 1][..i] == syms[..i];
      ghost var sb0 := sb;
      var links := syms[i].selects;
      for j := 0 to |links|
        invariant sb == AddSelectors(sb0, syms[i].name, links[..j])
      {
        assert links[..j + 1][..j] == links[..j];
        var t := links[j].target;
        if t !in sb {
          sb := sb[t := {}];
        }
        sb := sb[t := sb[t] + {syms[i].name}];
      }
      assert links[..|links|] == links;
    }
    assert syms[..|syms|] == syms;
  }

  /** The analyzer's state after `__init__`. */
  datatype Analyzer = Analyzer(graph: Graph, reverseDeps: map<string, set<string>>,
                               choiceGroups: map<string, seq<string>>)

  function AnalyzerOf(k: Kconfig): (a: Analyzer)
    ensures GraphOk(a.graph)
  {
    Analyzer(GraphOf(k), ReverseDeps(GraphOf(k)), ChoiceGroups(k.choices))
  }

  /** `DependencyAnalyzer.__init__`. */
  method BuildAnalyzer(k: Kconfig) returns (a: Analyzer)
    ensures a == AnalyzerOf(k)
  {
    var g := BuildDependencyGraph(k);
    var rev := BuildReverseDependencies(g);
    var groups := ExtractChoiceGroups(k.choices);
    a := Analyzer(g, rev, groups);
  }
}
