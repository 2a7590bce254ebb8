/** Properties of the validation stages and of the guided search as written. */
module DiceSearchProps {
  import opened Wrappers
  import opened Text
  import opened Dicts
  import opened DiceKconfig
  import opened DiceGraph
  import opened DiceValidate
  import opened DiceCandidates
  import opened DiceSearch

  // ----- Validation -----

  /** A candidate passes exactly when every configured stage passes, and a failure names
      the first stage that failed: the stages before it passed. */
  lemma VerdictStages(v: Validator, d: Dict)
    ensures Verdict(v, d) == Passed <==>
      ConstraintsHold(v.kconfig, d) && v.build(d)
      && (v.boot.None? || v.boot.value(d)) && (v.runtime.None? || v.runtime.value(d))
    ensures Verdict(v, d) != InvalidConfig ==> ConstraintsHold(v.kconfig, d)
    ensures Verdict(v, d) in {BootFail, RuntimeFail} ==> v.build(d)
    ensures Verdict(v, d) == RuntimeFail ==> v.boot.None? || v.boot.value(d)
    ensures v.boot.None? ==> Verdict(v, d) != BootFail
    ensures v.runtime.None? ==> Verdict(v, d) != RuntimeFail
  {
  }

  /** kconfiglib keeps a bool or tristate symbol's user value as an int, and a string never
      equals an int, so once a bool or tristate symbol is assigned the constraint check
      fails and the candidate is an invalid configuration, whatever the values are. */
  lemma TriStateAssignmentRejected(v: Validator, d: Dict, i: nat)
    requires var applied := Assignments(d.keys, d.vals, v.kconfig.known);
      i < |applied| && v.kconfig.evaluate(applied).Some?
      && v.kconfig.evaluate(applied).value(applied[i].0).userValue.Some?
      && v.kconfig.evaluate(applied).value(applied[i].0).userValue.value.TriValue?
    ensures !ConstraintsHold(v.kconfig, d)
    ensures Verdict(v, d) == InvalidConfig
  {
    var applied := Assignments(d.keys, d.vals, v.kconfig.known);
    assert !Stuck(v.kconfig.evaluate(applied).value(applied[i].0));
  }

  /** The `CONFIG_` key of a bare name strips back to the name, and a prefixed key whose
      name is bare is rebuilt from its name. */
  lemma KeyNameRoundTrip(sym: string, key: string)
    ensures !StartsWith(sym, Prefix) ==> SymName(ConfigKey(sym)) == sym
    ensures StartsWith(key, Prefix) && !StartsWith(SymName(key), Prefix) ==> ConfigKey(SymName(key)) == key
  {
    if !StartsWith(sym, Prefix) {
      assert (Prefix + sym)[..|Prefix|] == Prefix;
      assert (Prefix + sym)[|Prefix|..] == sym;
    }
  }

  /** An entry whose name kconfiglib does not know never becomes an assignment. */
  lemma {:induction false} AssignmentsIgnoreUnknown(keys: seq<string>, vals: map<string, string>, k: string, x: string, known: set<string>)
    requires SymName(k) !in known
    ensures Assignments(keys, vals[k := x], known) == Assignments(keys, vals, known)
    ensures Assignments(keys + [k], vals[k := x], known) == Assignments(keys, vals, known)
  {
    if keys != [] {
      AssignmentsIgnoreUnknown(keys[..|keys| - 1], vals, k, x, known);
    }
    assert (keys + [k])[..|keys|] == keys;
  }

  /** The constraint check ignores configuration entries for symbols the tree does not
      define. */
  lemma UnknownKeyIgnored(o: KconfigOracle, d: Dict, k: string, x: string)
    requires SymName(k) !in o.known
    ensures ConstraintsHold(o, Set(d, k, x)) == ConstraintsHold(o, d)
  {
    AssignmentsIgnoreUnknown(d.keys, d.vals, k, x, o.known);
  }

  // ----- Trial configurations -----

  /** `removed_symbols` holds the key of each symbol of the group and nothing else. */
  lemma {:induction false} KeysMeaning(syms: seq<string>, k: string)
    ensures k in Keys(syms) <==> exists i :: 0 <= i < |syms| && ConfigKey(syms[i]) == k
  {
    if syms != [] {
      var front := syms[..|syms| - 1];
      KeysMeaning(front, k);
      if (exists i :: 0 <= i < |syms| && ConfigKey(syms[i]) == k) {
        var i :| 0 <= i < |syms| && ConfigKey(syms[i]) == k;
        if i < |front| {
          assert front[i] == syms[i];
        }
      }
      if (exists i :: 0 <= i < |front| && ConfigKey(front[i]) == k) {
        var i :| 0 <= i < |front| && ConfigKey(front[i]) == k;
        assert syms[i] == front[i];
      }
    }
  }

  /** The trial configuration is the base one with every removed key set to `n`: it gains
      exactly the removed keys and changes no other entry. */
  lemma {:induction false} DisableMeaning(d: Dict, syms: seq<string>, k: string)
    ensures k in Disable(d, syms).vals <==> k in d.vals || k in Keys(syms)
    ensures k in Keys(syms) ==> Disable(d, syms).vals[k] == "n"
    ensures k !in Keys(syms) && k in d.vals ==> Disable(d, syms).vals[k] == d.vals[k]
  {
    if syms != [] {
      DisableMeaning(d, syms[..|syms| - 1], k);
    }
  }

  // ----- The skip check -----

  /** Every key of the configuration carries the `CONFIG_` prefix. */
  predicate Prefixed(d: Dict) {
    forall k :: k in d.vals ==> StartsWith(k, Prefix)
  }

  /** No symbol named by a group carries the prefix. */
  predicate BareGroups(groups: seq<Group>) {
    forall i, s :: 0 <= i < |groups| && s in groups[i].members ==> !StartsWith(s, Prefix)
  }

  lemma CurrentConfigPrefixed(syms: seq<Symbol>)
    ensures Prefixed(CurrentConfig(syms))
  {
    forall k | k in CurrentConfig(syms).vals
      ensures StartsWith(k, Prefix)
    {
      CurrentConfigEntries(syms, k);
      var i :| 0 <= i < |syms| && syms[i].strValue != "n" && Prefix + syms[i].name == k;
      assert k[..|Prefix|] == Prefix;
    }
  }

  /** A pass whose groups all name bare symbols, over a configuration whose keys are all
      prefixed, skips every group: the skip check looks for the bare name among the
      prefixed keys, finds none of them, and treats the group as already removed. */
  lemma {:induction false} PassIdle(v: Validator, sb: map<string, set<string>>, st: St, groups: seq<Group>)
    requires Prefixed(st.best.config) && BareGroups(groups)
    ensures Pass(v, sb, st, groups) == (st, false)
    decreases |groups|
  {
    if groups != [] {
      assert AllAbsent(st.best.config, groups[0].members) by {
        forall s | s in groups[0].members
          ensures s !in st.best.config.vals
        {
          assert !StartsWith(s, Prefix);
        }
      }
      assert BareGroups(groups[1..]) by {
        forall i, s | 0 <= i < |groups[1..]| && s in groups[1..][i].members
          ensures !StartsWith(s, Prefix)
        {
          assert groups[1..][i] == groups[i + 1];
        }
      }
      PassIdle(v, sb, st, groups[1..]);
    }
  }

  lemma SearchIdle(v: Validator, sb: map<string, set<string>>, st: St, groups: seq<Group>, n: nat)
    requires Prefixed(st.best.config) && BareGroups(groups)
    ensures Search(v, sb, st, groups, n) == st
  {
    if n > 0 {
      PassIdle(v, sb, st, groups);
    }
  }

  /** The symbol names a Kconfig tree and its cycles present: symbol names, component
      members and the symbols shown under the top-level menus. */
  ghost predicate BareNames(k: Kconfig, sccs: seq<seq<string>>) {
    (forall i :: 0 <= i < |k.syms| ==> !StartsWith(k.syms[i].name, Prefix))
    && (forall i, x :: 0 <= i < |sccs| && x in sccs[i] ==> !StartsWith(x, Prefix))
    && (forall i, x :: 0 <= i < |k.top.children| && InMenu(k.top.children[i], x) ==> !StartsWith(x, Prefix))
  }

  lemma CandidatesBare(k: Kconfig, g: Graph, sccs: seq<seq<string>>)
    requires BareNames(k, sccs)
    ensures BareGroups(Candidates(k, g, sccs))
  {
    var groups := Candidates(k, g, sccs);
    forall i, s | 0 <= i < |groups| && s in groups[i].members
      ensures !StartsWith(s, Prefix)
    {
      var grp := groups[i];
      LeafGroupsMeaning(k.syms, g, grp);
      SccGroupsMeaning(sccs, grp);
      MenuGroupsMeaning(k.top.children, grp);
      if grp in SccGroups(sccs) {
        var j :| 0 <= j < |sccs| && |SccGroup(sccs[j], j).members| > 1 && grp == SccGroup(sccs[j], j);
        assert s in Elems(Dedupe(sccs[j]));
      } else if grp in MenuGroups(k.top.children) {
        var j :| 0 <= j < |k.top.children| && k.top.children[j].item == Menu && |MenuSymbols(k.top.children[j])| > 1
          && grp == Group("menu_" + k.top.children[j].prompt, MenuSymbols(k.top.children[j]));
        MenuSymbolsMeaning(k.top.children[j], s);
      }
    }
  }

  /** The guided search as written never validates a candidate group: when no symbol name
      itself starts with `CONFIG_`, every group passes the skip check, and the search ends
      with the baseline as the best candidate and nothing added to `tested_configs`. */
  lemma GuidedSearchNeverTries(v: Validator, sb: map<string, set<string>>, k: Kconfig, g: Graph,
                               sccs: seq<seq<string>>, tested: seq<Cand>, n: nat)
    requires BareNames(k, sccs)
    ensures Search(v, sb, St(Baseline(v, k), tested), Candidates(k, g, sccs), n) == St(Baseline(v, k), tested)
  {
    CurrentConfigPrefixed(k.syms);
    CandidatesBare(k, g, sccs);
    SearchIdle(v, sb, St(Baseline(v, k), tested), Candidates(k, g, sccs), n);
  }

  // ----- One group -----

  /** A group that the veto stops is not validated and changes nothing. */
  lemma VetoedGroupUntouched(v: Validator, sb: map<string, set<string>>, st: St, syms: seq<string>)
    requires Vetoed(st.best.config, sb, syms)
    ensures TryGroup(v, sb, st, syms) == (st, false)
  {
  }

  /** A trial that passes is recorded and becomes the best candidate, with its reduction set
      to the number of removed keys; the pass ends there. */
  lemma PassingTrialAdopted(v: Validator, sb: map<string, set<string>>, st: St, syms: seq<string>)
    requires !Skipped(st, sb, syms) && Verdict(v, Disable(st.best.config, syms)) == Passed
    ensures var (st1, improved) := TryGroup(v, sb, st, syms);
      improved && st1.tested == st.tested + [st1.best]
      && st1.best.config == Disable(st.best.config, syms)
      && st1.best.disabled == st.best.disabled + Keys(syms)
      && st1.best.result == Some(Passed) && st1.best.reduction == Some(|Keys(syms)|)
  {
  }

  /** When a large group fails but its first half passes, the half becomes the best
      candidate, yet the group does not count as an improvement, and only the failed full
      trial is recorded: the bisection's own validation is not in `tested_configs`. */
  lemma BisectionIsNotImprovement(v: Validator, sb: map<string, set<string>>, st: St, syms: seq<string>)
    requires !Skipped(st, sb, syms) && |syms| > 5
    requires Verdict(v, Disable(st.best.config, syms)) != Passed
    requires Verdict(v, Disable(st.best.config, syms[..|syms| / 2])) == Passed
    ensures var (st1, improved) := TryGroup(v, sb, st, syms);
      var half := syms[..|syms| / 2];
      !improved
      && st1.tested == st.tested + [Trial(st.best, syms).(result := Some(Verdict(v, Disable(st.best.config, syms))))]
      && st1.best == Trial(st.best, half).(result := Some(Passed), reduction := Some(|Keys(half)|))
  {
    var half := syms[..|syms| / 2];
    BisectAdopts(v, st.best, syms);
    var c := Trial(st.best, syms);
    var failed := St(st.best, st.tested + [c.(result := Some(Verdict(v, c.config)))]);
    assert Attempt(v, st, syms) == (Bisect(v, failed, syms), false);
    assert BisectResult(v, st.best, syms)
      == Some(Trial(st.best, half).(result := Some(Passed), reduction := Some(|Keys(half)|)));
  }

  /** Bisection adopts the first half of a group when it validates. */
  lemma BisectAdopts(v: Validator, base: Cand, syms: seq<string>)
    requires |syms| > 1 && Verdict(v, Disable(base.config, syms[..|syms| / 2])) == Passed
    ensures var half := syms[..|syms| / 2];
      BisectResult(v, base, syms) == Some(Trial(base, half).(result := Some(Passed), reduction := Some(|Keys(half)|)))
  {
    var half := syms[..|syms| / 2];
    KeysMeaning(half, ConfigKey(half[0]));
  }

  // ----- Whole passes -----

  /** What every step of the search keeps: the history only grows at its end, the best
      candidate disables at least what it did, its configuration keeps all its keys in
      order, and a best candidate that passed validation is replaced only by one that
      passed. */
  predicate Progress(st0: St, st1: St) {
    st0.tested <= st1.tested
    && st0.best.disabled <= st1.best.disabled
    && st0.best.config.keys <= st1.best.config.keys
    && (st0.best.result == Some(Passed) ==> st1.best.result == Some(Passed))
  }

  lemma BisectProgress(v: Validator, st: St, syms: seq<string>)
    ensures Progress(st, Bisect(v, st, syms)) && Bisect(v, st, syms).tested == st.tested
  {
  }

  lemma TryGroupProgress(v: Validator, sb: map<string, set<string>>, st: St, syms: seq<string>)
    ensures Progress(st, TryGroup(v, sb, st, syms).0)
    ensures |TryGroup(v, sb, st, syms).0.tested| <= |st.tested| + 1
  {
    if !Skipped(st, sb, syms) {
      var c := Trial(st.best, syms);
      var r := Verdict(v, c.config);
      if r != Passed {
        var failed := St(st.best, st.tested + [c.(result := Some(r))]);
        BisectProgress(v, failed, syms);
      }
    }
  }

  /** A pass adds at most one record per group. */
  lemma {:induction false} PassProgress(v: Validator, sb: map<string, set<string>>, st: St, groups: seq<Group>)
    ensures Progress(st, Pass(v, sb, st, groups).0)
    ensures |Pass(v, sb, st, groups).0.tested| <= |st.tested| + |groups|
    decreases |groups|
  {
    if groups != [] {
      var (st1, improved) := TryGroup(v, sb, st, groups[0].members);
      TryGroupProgress(v, sb, st, groups[0].members);
      if !improved {
        PassProgress(v, sb, st1, groups[1..]);
      }
    }
  }

  /** The search adds at most one record per group and iteration, and keeps `Progress`. */
  lemma {:induction false} SearchProgress(v: Validator, sb: map<string, set<string>>, st: St, groups: seq<Group>, n: nat)
    ensures Progress(st, Search(v, sb, st, groups, n))
    ensures |Search(v, sb, st, groups, n).tested| <= |st.tested| + n * |groups|
    decreases n
  {
    if n > 0 {
      var (st1, improved) := Pass(v, sb, st, groups);
      PassProgress(v, sb, st, groups);
      if improved {
        SearchProgress(v, sb, st1, groups, n - 1);
        assert (n - 1) * |groups| + |groups| == n * |groups|;
      }
    }
  }

  /** A pass stops at the first improving group: the groups after it do not matter. */
  lemma {:induction false} PassStopsAtImprovement(v: Validator, sb: map<string, set<string>>, st: St,
                                                  g1: seq<Group>, g2: seq<Group>)
    requires Pass(v, sb, st, g1).1
    ensures Pass(v, sb, st, g1 + g2) == Pass(v, sb, st, g1)
    decreases |g1|
  {
    assert (g1 + g2)[0] == g1[0] && (g1 + g2)[1..] == g1[1..] + g2;
    var (st1, improved) := TryGroup(v, sb, st, g1[0].members);
    if !improved {
      PassStopsAtImprovement(v, sb, st1, g1[1..], g2);
    }
  }

  /** A pass without improvement goes through every group in order. */
  lemma {:induction false} PassWithoutImprovement(v: Validator, sb: map<string, set<string>>, st: St,
                                                  g1: seq<Group>, g2: seq<Group>)
    requires !Pass(v, sb, st, g1).1
    ensures Pass(v, sb, st, g1 + g2) == Pass(v, sb, Pass(v, sb, st, g1).0, g2)
    decreases |g1|
  {
    if g1 == [] {
      assert g1 + g2 == g2;
    } else {
      assert (g1 + g2)[0] == g1[0] && (g1 + g2)[1..] == g1[1..] + g2;
      var (st1, improved) := TryGroup(v, sb, st, g1[0].members);
      PassWithoutImprovement(v, sb, st1, g1[1..], g2);
    }
  }

  // ----- Saved results -----

  /** Disabled symbols stay in the configuration as `n` entries, so the reported final
      configuration is never smaller than the baseline, and the reported test count
      includes everything tested before the search. */
  lemma ReportNeverShrinks(v: Validator, sb: map<string, set<string>>, k: Kconfig, groups: seq<Group>,
                           tested: seq<Cand>, n: nat)
    ensures var st := Search(v, sb, St(Baseline(v, k), tested), groups, n);
      var saved := Results(k, Some(st.best), |st.tested|);
      saved.Some? ==>
        saved.value.0.finalConfigSize >= saved.value.0.baseConfigSize
        && saved.value.0.totalTests >= |tested|
        && saved.value.0.symbolsRemoved == |st.best.disabled|
  {
    SearchProgress(v, sb, St(Baseline(v, k), tested), groups, n);
  }

  const NotSet: string := " is not set\n"

  /** Position of the first `=` in `s` (`|s|` when there is none). */
  function FirstEquals(s: string): (i: nat)
    ensures i <= |s|
    ensures forall j :: 0 <= j < i ==> s[j] != '='
    ensures i < |s| ==> s[i] == '='
  {
    if s == [] then 0 else if s[0] == '=' then 0 else 1 + FirstEquals(s[1..])
  }

  /** How a `.config` reader reads a line: `# K is not set` gives `K=n`, `K=V` gives the
      value after the first `=`. */
  function ParseConfigLine(line: string): Option<(string, string)> {
    if StartsWith(line, "# ") && EndsWith(line, NotSet) && |line| >= 2 + |NotSet|
    then Some((line[2..|line| - |NotSet|], "n"))
    else if EndsWith(line, "\n") && FirstEquals(line) < |line| - 1
    then Some((line[..FirstEquals(line)], line[FirstEquals(line) + 1..|line| - 1]))
    else None
  }

  /** Every written line reads back as its entry, for keys that carry the prefix and have no
      `=`. */
  lemma ConfigLineRoundTrip(key: string, value: string)
    requires StartsWith(key, Prefix) && forall j :: 0 <= j < |key| ==> key[j] != '='
    ensures ParseConfigLine(ConfigLine(key, value)) == Some((key, value))
  {
    var line := ConfigLine(key, value);
    if value == "n" {
      assert line == "# " + key + NotSet;
      assert line[..2] == "# ";
      assert line[|line| - |NotSet|..] == NotSet;
      assert line[2..|line| - |NotSet|] == key;
    } else {
      assert line == key + "=" + value + "\n";
      assert line[0] == 'C';
      assert !StartsWith(line, "# ");
      assert line[|line| - 1..] == "\n";
      FirstEqualsAfter(key, value + "\n");
      assert line[..|key|] == key;
      assert line[|key| + 1..|line| - 1] == value;
    }
  }

  lemma {:induction false} FirstEqualsAfter(key: string, rest: string)
    requires forall j :: 0 <= j < |key| ==> key[j] != '='
    ensures FirstEquals(key + "=" + rest) == |key|
    decreases |key|
  {
    if key != [] {
      assert (key + "=" + rest)[1..] == key[1..] + "=" + rest;
      FirstEqualsAfter(key[1..], rest);
    }
  }

  /** The saved `.config` has one line per entry, in key order, and each reads back as its
      entry. */
  lemma ConfigLinesRoundTrip(d: Dict)
    requires Valid(d)
    requires forall i :: 0 <= i < |d.keys| ==> StartsWith(d.keys[i], Prefix) && forall j :: 0 <= j < |d.keys[i]| ==> d.keys[i][j] != '='
    ensures |ConfigLines(d)| == |d.keys|
    ensures forall i :: 0 <= i < |d.keys| ==> ParseConfigLine(ConfigLines(d)[i]) == Some((d.keys[i], d.vals[d.keys[i]]))
  {
    LinesLength(d.keys, d.vals);
    forall i | 0 <= i < |d.keys|
      ensures ParseConfigLine(ConfigLines(d)[i]) == Some((d.keys[i], d.vals[d.keys[i]]))
    {
      LineAt(d.keys, d.vals, i);
      ConfigLineRoundTrip(d.keys[i], d.vals[d.keys[i]]);
    }
  }

  lemma {:induction false} LinesLength(keys: seq<string>, vals: map<string, string>)
    ensures |ConfigLines(Dict(keys, vals))| == |keys|
    decreases |keys|
  {
    if keys != [] {
      LinesLength(keys[..|keys| - 1], vals);
    }
  }

  /** Line `i` is written from entry `i`. */
  lemma {:induction false} LineAt(keys: seq<string>, vals: map<string, string>, i: nat)
    requires i < |keys| && keys[i] in vals
    ensures |ConfigLines(Dict(keys, vals))| == |keys| && ConfigLines(Dict(keys, vals))[i] == ConfigLine(keys[i], vals[keys[i]])
    decreases |keys|
  {
    LinesLength(keys, vals);
    var front := keys[..|keys| - 1];
    if i < |front| {
      assert front[i] == keys[i];
      LinesLength(front, vals);
      LineAt(front, vals, i);
    }
  }
}
