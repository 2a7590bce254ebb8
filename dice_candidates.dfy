/** `identify_removal_candidates` and `_get_menu_symbols`: the groups of symbols the search
    tries to disable, in three tiers (leaf symbols, dependency cycles, top-level menus).
    A Python set of names is modelled as a duplicate-free sequence in iteration order. */
module DiceCandidates {
  import opened Text
  import opened DiceKconfig
  import opened DiceGraph

  /** A `(name, symbols)` candidate. */
  datatype Group = Group(name: string, members: seq<string>)

  predicate Distinct(xs: seq<string>) {
    forall i, j :: 0 <= i < j < |xs| ==> xs[i] != xs[j]
  }

  /** `s.add(x)`. */
  function AddName(xs: seq<string>, x: string): (r: seq<string>)
    ensures Distinct(xs) ==> Distinct(r)
    ensures Elems(r) == Elems(xs) + {x}
  {
    if x in xs then xs else xs + [x]
  }

  /** `s.update(ys)`. */
  function AddNames(xs: seq<string>, ys: seq<string>): (r: seq<string>)
    ensures Distinct(xs) ==> Distinct(r)
    ensures Elems(r) == Elems(xs) + Elems(ys)
  {
    if ys == [] then xs else AddName(AddNames(xs, ys[..|ys| - 1]), ys[|ys| - 1])
  }

  /** `set(ys)`. */
  function Dedupe(ys: seq<string>): (r: seq<string>)
    ensures Distinct(r) && Elems(r) == Elems(ys)
  {
    AddNames([], ys)
  }

  /** The leaf tier: an enabled symbol with no dependents, on its own. */
  function LeafGroups(syms: seq<Symbol>, g: Graph): seq<Group> {
    if syms == [] then []
    else
      var s := syms[|syms| - 1];
      LeafGroups(syms[..|syms| - 1], g)
      + (if s.strValue != "n" && Dependents(g, s.name) == {} then [Group("leaf_" + s.name, [s.name])] else [])
  }

  /** The group for component number `i`. */
  function SccGroup(scc: seq<string>, i: nat): Group {
    Group("scc_" + NatToString(i), Dedupe(scc))
  }

  /** The cycle tier: every strongly connected component with more than one symbol, named
      after its position in the component list. */
  function SccGroups(sccs: seq<seq<string>>): seq<Group> {
    if sccs == [] then []
    else
      var grp := SccGroup(sccs[|sccs| - 1], |sccs| - 1);
      SccGroups(sccs[..|sccs| - 1]) + (if |grp.members| > 1 then [grp] else [])
  }

  /** `_get_menu_symbols` over the first `k` children of `n`: symbols directly, menus
      recursively; comments, choices and the children of symbols are not entered. */
  function Collect(n: MenuNode, k: nat): seq<string>
    requires k <= |n.children|
    decreases n, k
  {
    if k == 0 then []
    else
      var acc := Collect(n, k - 1);
      var c := n.children[k - 1];
      match c.item
      case SymbolEntry(name) => AddName(acc, name)
      case Menu => AddNames(acc, Collect(c, |c.children|))
      case OtherEntry => acc
  }

  /** `_get_menu_symbols(n)`. */
  function MenuSymbols(n: MenuNode): seq<string> {
    Collect(n, |n.children|)
  }

  /** The menu tier: each menu directly under the top node with more than one symbol. */
  function MenuGroups(nodes: seq<MenuNode>): seq<Group> {
    if nodes == [] then []
    else
      var n := nodes[|nodes| - 1];
      MenuGroups(nodes[..|nodes| - 1])
      + (if n.item == Menu && |MenuSymbols(n)| > 1 then [Group("menu_" + n.prompt, MenuSymbols(n))] else [])
  }

  /** `identify_removal_candidates`: leaves, then cycles, then menus. */
  function Candidates(k: Kconfig, g: Graph, sccs: seq<seq<string>>): seq<Group> {
    LeafGroups(k.syms, g) + SccGroups(sccs) + MenuGroups(k.top.children)
  }

  /** `_get_menu_symbols`, walking the children and recursing into menus. */
  method GetMenuSymbols(n: MenuNode) returns (syms: seq<string>)
    ensures syms == MenuSymbols(n)
    decreases n
  {
    syms := [];
    for k := 0 to |n.children|
      invariant syms == Collect(n, k)
    {
      var c := n.children[k];
      match c.item {
        case SymbolEntry(name) =>
          syms := AddName(syms, name);
        case Menu =>
          var sub := GetMenuSymbols(c);
          for j := 0 to |sub|
            invariant syms == AddNames(Collect(n, k), sub[..j])
          {
            assert sub[..j + 1][..j] == sub[..j];
            syms := AddName(syms, sub[j]);
          }
          assert sub[..|sub|] == sub;
        case OtherEntry =>
      }
    }
  }

  /** `x` is a symbol shown under menu `n`, directly or inside nested menus. */
  ghost predicate InMenu(n: MenuNode, x: string)
    decreases n
  {
    exists i :: 0 <= i < |n.children| &&
      (n.children[i].item == SymbolEntry(x) || (n.children[i].item == Menu && InMenu(n.children[i], x)))
  }

  /** `_get_menu_symbols` lists no symbol twice. */
  lemma {:induction false} CollectDistinct(n: MenuNode, k: nat)
    requires k <= |n.children|
    ensures Distinct(Collect(n, k))
  {
    if k > 0 {
      CollectDistinct(n, k - 1);
    }
  }

  /** What child `k - 1` adds to the collected symbols. */
  lemma CollectStep(n: MenuNode, k: nat, x: string)
    requires 0 < k <= |n.children|
    ensures var c := n.children[k - 1];
      x in Collect(n, k) <==>
        x in Collect(n, k - 1) || c.item == SymbolEntry(x) || (c.item == Menu && x in Collect(c, |c.children|))
  {
    var c := n.children[k - 1];
    assert x in Elems(Collect(n, k)) <==> x in Collect(n, k);
    assert x in Elems(Collect(n, k - 1)) <==> x in Collect(n, k - 1);
    if c.item == Menu {
      assert x in Elems(Collect(c, |c.children|)) <==> x in Collect(c, |c.children|);
    }
  }

  /** Every symbol `_get_menu_symbols` collects is shown by one of the children. */
  lemma {:induction false} CollectSound(n: MenuNode, k: nat, x: string)
    requires k <= |n.children| && x in Collect(n, k)
    ensures exists i :: 0 <= i < k &&
               (n.children[i].item == SymbolEntry(x) || (n.children[i].item == Menu && InMenu(n.children[i], x)))
    decreases n, k
  {
    CollectStep(n, k, x);
    var c := n.children[k - 1];
    if x in Collect(n, k - 1) {
      CollectSound(n, k - 1, x);
      var i :| 0 <= i < k - 1 &&
        (n.children[i].item == SymbolEntry(x) || (n.children[i].item == Menu && InMenu(n.children[i], x)));
      assert 0 <= i < k;
    } else if c.item == Menu {
      CollectSound(c, |c.children|, x);
      assert InMenu(c, x);
    }
  }

  /** Every symbol a child shows is collected. */
  lemma {:induction false} CollectComplete(n: MenuNode, k: nat, x: string, i: nat)
    requires i < k <= |n.children|
    requires n.children[i].item == SymbolEntry(x) || (n.children[i].item == Menu && InMenu(n.children[i], x))
    ensures x in Collect(n, k)
    decreases n, k
  {
    CollectStep(n, k, x);
    var c := n.children[k - 1];
    if i < k - 1 {
      CollectComplete(n, k - 1, x, i);
    } else if c.item == Menu && InMenu(c, x) {
      var j :| 0 <= j < |c.children| &&
        (c.children[j].item == SymbolEntry(x) || (c.children[j].item == Menu && InMenu(c.children[j], x)));
      CollectComplete(c, |c.children|, x, j);
    }
  }

  lemma MenuSymbolsMeaning(n: MenuNode, x: string)
    ensures Distinct(MenuSymbols(n))
    ensures x in MenuSymbols(n) <==> InMenu(n, x)
  {
    CollectDistinct(n, |n.children|);
    if x in MenuSymbols(n) {
      CollectSound(n, |n.children|, x);
    }
    if InMenu(n, x) {
      var i :| 0 <= i < |n.children| &&
        (n.children[i].item == SymbolEntry(x) || (n.children[i].item == Menu && InMenu(n.children[i], x)));
      CollectComplete(n, |n.children|, x, i);
    }
  }

  /** The leaf tier holds exactly one group `leaf_<name>` with the symbol alone for each
      enabled symbol that nothing depends on. */
  lemma {:induction false} LeafGroupsMeaning(syms: seq<Symbol>, g: Graph, grp: Group)
    ensures grp in LeafGroups(syms, g) <==>
      exists i :: 0 <= i < |syms| && syms[i].strValue != "n" && Dependents(g, syms[i].name) == {}
        && grp == Group("leaf_" + syms[i].name, [syms[i].name])
  {
    if syms != [] {
      var front := syms[..|syms| - 1];
      LeafGroupsMeaning(front, g, grp);
      if (exists i :: 0 <= i < |syms| && syms[i].strValue != "n" && Dependents(g, syms[i].name) == {} && grp == Group("leaf_" + syms[i].name, [syms[i].name]))
      {
        var i :| 0 <= i < |syms| && syms[i].strValue != "n" && Dependents(g, syms[i].name) == {}
          && grp == Group("leaf_" + syms[i].name, [syms[i].name]);
        if i < |syms| - 1 {
          assert front[i] == syms[i];
        }
      }
      if (exists i :: 0 <= i < |front| && front[i].strValue != "n" && Dependents(g, front[i].name) == {} && grp == Group("leaf_" + front[i].name, [front[i].name]))
      {
        var i :| 0 <= i < |front| && front[i].strValue != "n" && Dependents(g, front[i].name) == {}
          && grp == Group("leaf_" + front[i].name, [front[i].name]);
        assert syms[i] == front[i];
      }
    }
  }

  /** The cycle tier holds, for each component with more than one distinct symbol, its
      symbols once each, named after the component's position. */
  lemma SccGroupsMeaning(sccs: seq<seq<string>>, grp: Group)
    ensures grp in SccGroups(sccs) <==>
      exists i :: 0 <= i < |sccs| && |SccGroup(sccs[i], i).members| > 1 && grp == SccGroup(sccs[i], i)
  {
    if grp in SccGroups(sccs) {
      SccGroupsSound(sccs, grp);
    }
    if (exists i :: 0 <= i < |sccs| && |SccGroup(sccs[i], i).members| > 1 && grp == SccGroup(sccs[i], i)) {
      var i :| 0 <= i < |sccs| && |SccGroup(sccs[i], i).members| > 1 && grp == SccGroup(sccs[i], i);
      SccGroupsComplete(sccs, i);
    }
  }

  lemma {:induction false} SccGroupsSound(sccs: seq<seq<string>>, grp: Group)
    requires grp in SccGroups(sccs)
    ensures exists i :: 0 <= i < |sccs| && |SccGroup(sccs[i], i).members| > 1 && grp == SccGroup(sccs[i], i)
  {
    var front := sccs[..|sccs| - 1];
    if grp in SccGroups(front) {
      SccGroupsSound(front, grp);
      var i :| 0 <= i < |front| && |SccGroup(front[i], i).members| > 1 && grp == SccGroup(front[i], i);
      assert sccs[i] == front[i];
    } else {
      assert grp == SccGroup(sccs[|sccs| - 1], |sccs| - 1);
    }
  }

  lemma {:induction false} SccGroupsComplete(sccs: seq<seq<string>>, i: nat)
    requires i < |sccs| && |SccGroup(sccs[i], i).members| > 1
    ensures SccGroup(sccs[i], i) in SccGroups(sccs)
  {
    var front := sccs[..|sccs| - 1];
    var last := SccGroup(sccs[|sccs| - 1], |sccs| - 1);
    assert SccGroups(sccs) == SccGroups(front) + (if |last.members| > 1 then [last] else []);
    if i < |front| {
      assert front[i] == sccs[i];
      SccGroupsComplete(front, i);
    }
  }

  /** The menu tier holds, for each menu directly under the top node that shows more than one
      symbol, the group `menu_<prompt>` of its symbols. */
  lemma {:induction false} MenuGroupsMeaning(nodes: seq<MenuNode>, grp: Group)
    ensures grp in MenuGroups(nodes) <==>
      exists i :: 0 <= i < |nodes| && nodes[i].item == Menu && |MenuSymbols(nodes[i])| > 1
        && grp == Group("menu_" + nodes[i].prompt, MenuSymbols(nodes[i]))
  {
    if nodes != [] {
      var front := nodes[..|nodes| - 1];
      MenuGroupsMeaning(front, grp);
      if (exists i :: 0 <= i < |nodes| && nodes[i].item == Menu && |MenuSymbols(nodes[i])| > 1 && grp == Group("menu_" + nodes[i].prompt, MenuSymbols(nodes[i])))
      {
        var i :| 0 <= i < |nodes| && nodes[i].item == Menu && |MenuSymbols(nodes[i])| > 1
          && grp == Group("menu_" + nodes[i].prompt, MenuSymbols(nodes[i]));
        if i < |nodes| - 1 {
          assert front[i] == nodes[i];
        }
      }
      if (exists i :: 0 <= i < |front| && front[i].item == Menu && |MenuSymbols(front[i])| > 1 && grp == Group("menu_" + front[i].prompt, MenuSymbols(front[i])))
      {
        var i :| 0 <= i < |front| && front[i].item == Menu && |MenuSymbols(front[i])| > 1
          && grp == Group("menu_" + front[i].prompt, MenuSymbols(front[i]));
        assert nodes[i] == front[i];
      }
    }
  }

  /** Every candidate group lists its symbols once each, so its length is the size of the
      Python set; cycle and menu groups have more than one symbol. */
  lemma CandidateGroupsDistinct(k: Kconfig, g: Graph, sccs: seq<seq<string>>, grp: Group)
    requires grp in Candidates(k, g, sccs)
    ensures Distinct(grp.members) && |grp.members| >= 1
  {
    LeafGroupsMeaning(k.syms, g, grp);
    SccGroupsMeaning(sccs, grp);
    MenuGroupsMeaning(k.top.children, grp);
    if grp in MenuGroups(k.top.children) {
      var i :| 0 <= i < |k.top.children| && k.top.children[i].item == Menu && |MenuSymbols(k.top.children[i])| > 1
        && grp == Group("menu_" + k.top.children[i].prompt, MenuSymbols(k.top.children[i]));
      MenuSymbolsMeaning(k.top.children[i], "");
    }
  }
}
