/** `DependencyAnalyzer.compute_removal_impact`: what disabling a set of symbols reaches in
    the dependency graph, and which choices it would empty. */
module DiceImpact {
  import opened DiceGraph

  datatype Impact = Impact(directlyAffected: set<string>, transitivelyAffected: set<string>,
                           choiceConflicts: set<string>)

  /** The dependents of any of `symbols`. */
  function DirectOf(g: Graph, symbols: set<string>): set<string> {
    set s, t | s in symbols && t in Dependents(g, s) :: t
  }

  /** No dependent of a member of `S` lies outside `S`. */
  predicate Closed(g: Graph, S: set<string>) {
    forall x :: x in S ==> Dependents(g, x) <= S
  }

  /** `T` is the least set containing `seeds` and closed under dependents. */
  ghost predicate LeastClosed(g: Graph, seeds: set<string>, T: set<string>) {
    seeds <= T && Closed(g, T) && forall S :: Closed(g, S) && seeds <= S ==> T <= S
  }

  /** The choices one of whose members is among `done` and all of whose members are among
      `symbols`. */
  function ConflictsFrom(groups: map<string, seq<string>>, done: set<string>, symbols: set<string>): set<string> {
    set c | c in groups && (exists s :: s in done && s in groups[c]) && forall m :: m in groups[c] ==> m in symbols
  }

  /** `choice_conflicts`: the choices that would lose every member. */
  function ConflictsOf(groups: map<string, seq<string>>, symbols: set<string>): set<string> {
    ConflictsFrom(groups, symbols, symbols)
  }

  /** The inner loop over `choice_groups` for one removed symbol. */
  method ChoiceConflictsFor(groups: map<string, seq<string>>, s: string, symbols: set<string>)
    returns (found: set<string>)
    ensures found == set c | c in groups && s in groups[c] && forall m :: m in groups[c] ==> m in symbols
  {
    found := {};
    var todo := groups.Keys;
    while todo != {}
      invariant todo <= groups.Keys
      invariant found == set c | c in groups.Keys - todo && s in groups[c] && forall m :: m in groups[c] ==> m in symbols
      decreases |todo|
    {
      var c :| c in todo;
      var members := groups[c];
      if s in members && forall m :: m in members ==> m in symbols {
        found := found + {c};
      }
      todo := todo - {c};
    }
  }

  lemma DirectStep(g: Graph, done: set<string>, s: string)
    ensures DirectOf(g, done + {s}) == DirectOf(g, done) + Dependents(g, s)
  {
  }

  lemma ConflictsStep(groups: map<string, seq<string>>, done: set<string>, s: string, symbols: set<string>)
    ensures ConflictsFrom(groups, done + {s}, symbols) ==
      ConflictsFrom(groups, done, symbols) +
      (set c | c in groups && s in groups[c] && forall m :: m in groups[c] ==> m in symbols)
  {
  }

  /** Adding new nodes to a set shrinks what is left of `nodes`. */
  lemma RemainingShrinks(nodes: set<string>, all: set<string>, added: set<string>)
    requires added <= nodes && added * all == {} && added != {}
    ensures |nodes - (all + added)| < |nodes - all|
  {
    assert nodes - all == (nodes - (all + added)) + added;
    assert (nodes - (all + added)) * added == {};
  }

  /** `compute_removal_impact`. The worklist is a set here: Python pops from a list, but the
      order in which nodes are taken does not change the result. */
  method ComputeRemovalImpact(a: Analyzer, symbols: set<string>) returns (impact: Impact)
    requires GraphOk(a.graph)
    ensures impact.directlyAffected == DirectOf(a.graph, symbols)
    ensures impact.choiceConflicts == ConflictsOf(a.choiceGroups, symbols)
    ensures LeastClosed(a.graph, impact.directlyAffected, impact.transitivelyAffected)
  {
    var g := a.graph;
    var direct: set<string> := {};
    var conflicts: set<string> := {};
    var todo := symbols;
    while todo != {}
      invariant todo <= symbols
      invariant direct == DirectOf(g, symbols - todo)
      invariant conflicts == ConflictsFrom(a.choiceGroups, symbols - todo, symbols)
      decreases |todo|
    {
      var s :| s in todo;
      DirectStep(g, symbols - todo, s);
      ConflictsStep(a.choiceGroups, symbols - todo, s, symbols);
      assert symbols - (todo - {s}) == (symbols - todo) + {s};
      direct := direct + Dependents(g, s);
      var found := ChoiceConflictsFor(a.choiceGroups, s, symbols);
      conflicts := conflicts + found;
      todo := todo - {s};
    }
    assert symbols - todo == symbols;
    var all := Closure(g, direct);
    impact := Impact(direct, all, conflicts);
  }

  /** The worklist invariant: everything found contains the seeds, and each found node
      that has left the worklist has all its dependents found. */
  predicate WorkOk(g: Graph, seeds: set<string>, all: set<string>, work: set<string>) {
    work <= all && seeds <= all && forall x :: x in all && x !in work ==> Dependents(g, x) <= all
  }

  /** Nothing found lies outside any closed set containing the seeds. */
  ghost predicate BelowClosed(g: Graph, seeds: set<string>, all: set<string>) {
    forall S :: Closed(g, S) && seeds <= S ==> all <= S
  }

  lemma ClosureStep(g: Graph, seeds: set<string>, all: set<string>, work: set<string>, cur: string)
    requires GraphOk(g)
    requires WorkOk(g, seeds, all, work) && BelowClosed(g, seeds, all) && cur in work
    ensures var added := Dependents(g, cur) - all;
      && WorkOk(g, seeds, all + added, (work - {cur}) + added)
      && BelowClosed(g, seeds, all + added)
      && if added == {} then |work - {cur}| < |work| else |g.nodes - (all + added)| < |g.nodes - all|
  {
    var added := Dependents(g, cur) - all;
    forall S | Closed(g, S) && seeds <= S
      ensures all + added <= S
    {
      assert cur in S;
    }
    if added != {} {
      DependentsAreNodes(g, cur);
      RemainingShrinks(g.nodes, all, added);
    }
  }

  /** The worklist loop of `compute_removal_impact`. */
  method Closure(g: Graph, seeds: set<string>) returns (all: set<string>)
    requires GraphOk(g)
    ensures LeastClosed(g, seeds, all)
  {
    all := seeds;
    var work := seeds;
    while work != {}
      invariant WorkOk(g, seeds, all, work) && BelowClosed(g, seeds, all)
      decreases |g.nodes - all|, |work|
    {
      var cur :| cur in work;
      ClosureStep(g, seeds, all, work, cur);
      var added := Dependents(g, cur) - all;
      work := (work - {cur}) + added;
      all := all + added;
    }
  }
}
