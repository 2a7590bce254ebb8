/** `DICEDebloater`: the guided search over removal candidates, bisection of failed large
    groups, and the saved results. The search is specified by functions over candidate
    values (`TryGroup`, `Pass`, `Search`); the class keeps `best_config` and
    `tested_configs` as explicit state and its methods are proved against those functions. */
module DiceSearch {
  import opened Wrappers
  import opened Text
  import opened Dicts
  import opened DiceKconfig
  import opened DiceGraph
  import opened DiceValidate
  import opened DiceCandidates

  /** `f"CONFIG_{sym}" if not sym.startswith("CONFIG_") else sym`. */
  function ConfigKey(sym: string): (key: string)
    ensures StartsWith(key, Prefix)
  {
    if StartsWith(sym, Prefix) then sym else Prefix + sym
  }

  /** The trial configuration: each symbol's key set to `n`. */
  function Disable(d: Dict, syms: seq<string>): (r: Dict)
    ensures Valid(d) ==> Valid(r)
    ensures d.keys <= r.keys
  {
    if syms == [] then d else Set(Disable(d, syms[..|syms| - 1]), ConfigKey(syms[|syms| - 1]), "n")
  }

  /** `removed_symbols`: the keys a trial sets to `n`. */
  function Keys(syms: seq<string>): set<string> {
    if syms == [] then {} else Keys(syms[..|syms| - 1]) + {ConfigKey(syms[|syms| - 1])}
  }

  /** The skip check as written: no symbol of the group is a key of the configuration. The
      keys carry the `CONFIG_` prefix and the symbols do not, so this compares two different
      key spaces. */
  predicate AllAbsent(d: Dict, syms: seq<string>) {
    forall s :: s in syms ==> s !in d.vals
  }

  /** The select veto: some symbol of the group is selected by a symbol whose `CONFIG_` key
      is `y` in the configuration. */
  predicate Vetoed(d: Dict, selectedBy: map<string, set<string>>, syms: seq<string>) {
    exists s, sel :: s in syms && s in selectedBy && sel in selectedBy[s]
      && Prefix + sel in d.vals && d.vals[Prefix + sel] == "y"
  }

  /** A new candidate disabling `syms` on top of `best`, not yet validated. */
  function Trial(best: Cand, syms: seq<string>): Cand {
    Cand(Disable(best.config, syms), best.disabled + Keys(syms), None, None)
  }

  /** `best_config` and the values of `tested_configs`. */
  datatype St = St(best: Cand, tested: seq<Cand>)

  /** `_try_bisection_removal` from `base`: the new best candidate when the first half of
      the group validates. */
  function BisectResult(v: Validator, base: Cand, syms: seq<string>): Option<Cand> {
    var half := syms[..|syms| / 2];
    if half == [] || Keys(half) == {} then None
    else
      var c := Trial(base, half);
      if Verdict(v, c.config) == Passed
      then Some(c.(result := Some(Passed), reduction := Some(|Keys(half)|)))
      else None
  }

  function Bisect(v: Validator, st: St, syms: seq<string>): St {
    match BisectResult(v, st.best, syms)
    case None => st
    case Some(c) => St(c, st.tested)
  }

  /** A group the pass skips without validating anything. */
  predicate Skipped(st: St, selectedBy: map<string, set<string>>, syms: seq<string>) {
    AllAbsent(st.best.config, syms) || Vetoed(st.best.config, selectedBy, syms) || Keys(syms) == {}
  }

  /** Validating the trial of a group that is not skipped: the trial is recorded; it becomes
      the best candidate when it passes, and a failed group of more than five symbols is
      bisected. */
  function Attempt(v: Validator, st: St, syms: seq<string>): (St, bool) {
    var c := Trial(st.best, syms);
    var r := Verdict(v, c.config);
    if r == Passed then
      var won := c.(result := Some(r), reduction := Some(|Keys(syms)|));
      (St(won, st.tested + [won]), true)
    else
      var failed := St(st.best, st.tested + [c.(result := Some(r))]);
      if |syms| > 5 then (Bisect(v, failed, syms), false) else (failed, false)
  }

  /** One candidate group of a pass: the new state, and whether the pass ends with an
      improvement. */
  function TryGroup(v: Validator, selectedBy: map<string, set<string>>, st: St, syms: seq<string>): (St, bool) {
    if Skipped(st, selectedBy, syms) then (st, false) else Attempt(v, st, syms)
  }

  /** One iteration: the groups in order until the first improvement. */
  function Pass(v: Validator, selectedBy: map<string, set<string>>, st: St, groups: seq<Group>): (St, bool)
    decreases |groups|
  {
    if groups == [] then (st, false)
    else
      var (st1, improved) := TryGroup(v, selectedBy, st, groups[0].members);
      if improved then (st1, true) else Pass(v, selectedBy, st1, groups[1..])
  }

  /** Up to `n` iterations, stopping after the first one without improvement. */
  function Search(v: Validator, selectedBy: map<string, set<string>>, st: St, groups: seq<Group>, n: nat): St
    decreases n
  {
    if n == 0 then st
    else
      var (st1, improved) := Pass(v, selectedBy, st, groups);
      if improved then Search(v, selectedBy, st1, groups, n - 1) else st1
  }

  /** The baseline candidate after its validation. */
  function Baseline(v: Validator, k: Kconfig): Cand {
    Cand(CurrentConfig(k.syms), {}, Some(Verdict(v, CurrentConfig(k.syms))), None)
  }

  /** What `save_results` writes: the counts and the final configuration. The percentage is
      a float and is not modelled; its division by the baseline size is. */
  datatype Report = Report(baseConfigSize: nat, finalConfigSize: nat, symbolsRemoved: nat,
                           totalTests: nat, finalConfig: Dict, removedSymbols: set<string>)

  /** A `.config` line. */
  function ConfigLine(key: string, value: string): string {
    if value == "n" then "# " + key + " is not set\n" else key + "=" + value + "\n"
  }

  /** The `.config` file, one line per entry in key order. */
  function ConfigLines(d: Dict): seq<string>
    decreases |d.keys|
  {
    if d.keys == [] then []
    else
      var front := ConfigLines(Dict(d.keys[..|d.keys| - 1], d.vals));
      var key := d.keys[|d.keys| - 1];
      front + [ConfigLine(key, if key in d.vals then d.vals[key] else "")]
  }

  /** `save_results`: nothing when there is no best candidate (the attribute access fails)
      or the baseline is empty (the percentage divides by zero). */
  function Results(k: Kconfig, best: Option<Cand>, tests: nat): Option<(Report, seq<string>)> {
    var baseSize := Size(CurrentConfig(k.syms));
    if best.None? || baseSize == 0 then None
    else
      var b := best.value;
      Some((Report(baseSize, Size(b.config), |b.disabled|, tests, b.config, b.disabled), ConfigLines(b.config)))
  }

  /** The values of a list of candidates. */
  function Values(cs: seq<ConfigCandidate>): seq<Cand>
    reads cs
  {
    if cs == [] then [] else Values(cs[..|cs| - 1]) + [cs[|cs| - 1].Value()]
  }

  lemma ValuesAppend(cs: seq<ConfigCandidate>, c: ConfigCandidate)
    ensures Values(cs + [c]) == Values(cs) + [c.Value()]
  {
    assert (cs + [c])[..|cs|] == cs;
  }

  /** The two copies of the trial loop (`new_config[key] = "n"`, `removed.add(key)`). */
  method DisableSymbols(config: Dict, syms: seq<string>) returns (newConfig: Dict, removed: set<string>)
    ensures newConfig == Disable(config, syms) && removed == Keys(syms)
  {
    newConfig := config;
    removed := {};
    for i := 0 to |syms|
      invariant newConfig == Disable(config, syms[..i]) && removed == Keys(syms[..i])
    {
      assert syms[..i + 1][..i] == syms[..i];
      var key := if StartsWith(syms[i], Prefix) then syms[i] else Prefix + syms[i];
      newConfig := Set(newConfig, key, "n");
      removed := removed + {key};
    }
    assert syms[..|syms|] == syms;
  }

  method RenderConfig(d: Dict) returns (lines: seq<string>)
    ensures lines == ConfigLines(d)
  {
    lines := [];
    for i := 0 to |d.keys|
      invariant lines == ConfigLines(Dict(d.keys[..i], d.vals))
    {
      assert d.keys[..i + 1][..i] == d.keys[..i];
      var key := d.keys[i];
      var value := if key in d.vals then d.vals[key] else "";
      if value == "n" {
        lines := lines + ["# " + key + " is not set\n"];
      } else {
        lines := lines + [key + "=" + value + "\n"];
      }
    }
    assert d.keys[..|d.keys|] == d.keys;
  }

  /** A new candidate for the trial configuration, validated, with its size reduction set
      when it passes. (The source appends the candidate to `tested_configs` before setting
      the reduction; the list holds the same object, so the order does not show.) */
  method RunTrial(v: Validator, base: ConfigCandidate, syms: seq<string>, newConfig: Dict, removed: set<string>)
    returns (c: ConfigCandidate, r: ValidationResult)
    requires newConfig == Disable(base.config, syms) && removed == Keys(syms)
    ensures fresh(c) && r == Verdict(v, newConfig)
    ensures c.Value() == Trial(base.Value(), syms).(result := Some(r),
                                                    reduction := if r == Passed then Some(|Keys(syms)|) else None)
  {
    c := new ConfigCandidate(newConfig, base.disabledSymbols + removed);
    r := ValidateConfig(v, c);
    if r == Passed {
      c.sizeReduction := Some(|removed|);
    }
  }

  /** The candidate `_try_bisection_removal` adopts, if any. */
  method BisectCandidate(v: Validator, syms: seq<string>, base: ConfigCandidate) returns (c: ConfigCandidate?)
    ensures c == null <==> BisectResult(v, base.Value(), syms).None?
    ensures c != null ==> fresh(c) && c.Value() == BisectResult(v, base.Value(), syms).value
  {
    c := null;
    var half := syms[..|syms| / 2];
    if half != [] {
      var newConfig, removed := DisableSymbols(base.config, half);
      if removed != {} {
        var candidate, result := RunTrial(v, base, half, newConfig, removed);
        if result == Passed {
          c := candidate;
        }
      }
    }
  }

  class Debloater {
    const kconfig: Kconfig
    const analyzer: Analyzer
    const validator: Validator
    /** networkx's strongly connected components of the dependency graph. */
    const sccs: seq<seq<string>>
    /** The select map the veto reads (the source never stores one; see the README). */
    const selectedBy: map<string, set<string>>
    var testedConfigs: seq<ConfigCandidate>
    var bestConfig: ConfigCandidate?

    function State(): St
      reads this, bestConfig, testedConfigs
      requires bestConfig != null
    {
      St(bestConfig.Value(), Values(testedConfigs))
    }

    constructor (kconfig: Kconfig, validator: Validator, sccs: seq<seq<string>>, selectedBy: map<string, set<string>>)
      ensures this.kconfig == kconfig && this.validator == validator && this.sccs == sccs
      ensures this.selectedBy == selectedBy && analyzer == AnalyzerOf(kconfig)
      ensures testedConfigs == [] && bestConfig == null
    {
      this.kconfig := kconfig;
      var a := BuildAnalyzer(kconfig);
      analyzer := a;
      this.validator := validator;
      this.sccs := sccs;
      this.selectedBy := selectedBy;
      testedConfigs := [];
      bestConfig := null;
    }

    /** `get_current_config`. */
    method GetCurrentConfig() returns (config: Dict)
      ensures config == CurrentConfig(kconfig.syms)
    {
      config := Empty;
      for i := 0 to |kconfig.syms|
        invariant config == CurrentConfig(kconfig.syms[..i])
      {
        assert kconfig.syms[..i + 1][..i] == kconfig.syms[..i];
        var s := kconfig.syms[i];
        if s.strValue != "n" {
          config := Set(config, Prefix + s.name, s.strValue);
        }
      }
      assert kconfig.syms[..|kconfig.syms|] == kconfig.syms;
    }

    /** `identify_removal_candidates`. */
    method IdentifyRemovalCandidates() returns (candidates: seq<Group>)
      ensures candidates == Candidates(kconfig, analyzer.graph, sccs)
    {
      var syms := kconfig.syms;
      var leaves: seq<Group> := [];
      for i := 0 to |syms|
        invariant leaves == LeafGroups(syms[..i], analyzer.graph)
      {
        assert syms[..i + 1][..i] == syms[..i];
        if syms[i].strValue != "n" && Dependents(analyzer.graph, syms[i].name) == {} {
          leaves := leaves + [Group("leaf_" + syms[i].name, [syms[i].name])];
        }
      }
      assert syms[..|syms|] == syms;
      var cycles: seq<Group> := [];
      for i := 0 to |sccs|
        invariant cycles == SccGroups(sccs[..i])
      {
        assert sccs[..i + 1][..i] == sccs[..i];
        var members := Dedupe(sccs[i]);
        if |members| > 1 {
          cycles := cycles + [Group("scc_" + NatToString(i), members)];
        }
      }
      assert sccs[..|sccs|] == sccs;
      var menus: seq<Group> := [];
      var nodes := kconfig.top.children;
      for i := 0 to |nodes|
        invariant menus == MenuGroups(nodes[..i])
      {
        assert nodes[..i + 1][..i] == nodes[..i];
        if nodes[i].item == Menu {
          var members := GetMenuSymbols(nodes[i]);
          if |members| > 1 {
            menus := menus + [Group("menu_" + nodes[i].prompt, members)];
          }
        }
      }
      assert nodes[..|nodes|] == nodes;
      candidates := leaves + cycles + menus;
    }

    /** `_try_bisection_removal(syms, base)`: validates the first half once; on success the
        new candidate becomes `best_config`. Nothing is added to `tested_configs`. */
    method TryBisectionRemoval(syms: seq<string>, base: ConfigCandidate)
      modifies this
      ensures testedConfigs == old(testedConfigs)
      ensures BisectResult(validator, old(base.Value()), syms).None? ==> bestConfig == old(bestConfig)
      ensures BisectResult(validator, old(base.Value()), syms).Some? ==>
        bestConfig != null && fresh(bestConfig) && bestConfig.Value() == BisectResult(validator, old(base.Value()), syms).value
      ensures old(bestConfig) == base ==> bestConfig != null && State() == Bisect(validator, old(State()), syms)
    {
      var c := BisectCandidate(validator, syms, base);
      if c != null {
        bestConfig := c;
      }
    }

    /** The body of the loop over candidate groups, for one group. */
    method TryCandidate(syms: seq<string>) returns (improved: bool)
      requires bestConfig != null
      modifies this
      ensures bestConfig != null
      ensures (State(), improved) == TryGroup(validator, selectedBy, old(State()), syms)
    {
      var best := bestConfig;
      if AllAbsent(best.config, syms) || Vetoed(best.config, selectedBy, syms) {
        return false;
      }
      var newConfig, removed := DisableSymbols(best.config, syms);
      if removed == {} {
        return false;
      }
      improved := AttemptCandidate(syms, newConfig, removed);
    }

    /** Validating and recording the trial of a group that is not skipped. */
    method AttemptCandidate(syms: seq<string>, newConfig: Dict, removed: set<string>) returns (improved: bool)
      requires bestConfig != null
      requires newConfig == Disable(bestConfig.config, syms) && removed == Keys(syms)
      modifies this
      ensures bestConfig != null
      ensures (State(), improved) == Attempt(validator, old(State()), syms)
    {
      var best := bestConfig;
      ghost var st0 := State();
      var candidate, result := RunTrial(validator, best, syms, newConfig, removed);
      Record(candidate);
      if result == Passed {
        bestConfig := candidate;
        return true;
      }
      ghost var failed := State();
      assert failed == St(st0.best, st0.tested + [Trial(st0.best, syms).(result := Some(result))]);
      if |syms| > 5 {
        TryBisectionRemoval(syms, best);
        assert State() == Bisect(validator, failed, syms);
      }
      return false;
    }

    /** `tested_configs.append(c)`. */
    method Record(c: ConfigCandidate)
      requires bestConfig != null
      modifies this
      ensures bestConfig == old(bestConfig) && testedConfigs == old(testedConfigs) + [c]
      ensures State() == St(old(State()).best, old(State()).tested + [c.Value()])
    {
      ValuesAppend(testedConfigs, c);
      testedConfigs := testedConfigs + [c];
    }

    /** One iteration of the search loop. */
    method RunPass(groups: seq<Group>) returns (improved: bool)
      requires bestConfig != null
      modifies this
      ensures bestConfig != null
      ensures (State(), improved) == Pass(validator, selectedBy, old(State()), groups)
    {
      var i := 0;
      while i < |groups|
        invariant 0 <= i <= |groups| && bestConfig != null
        invariant Pass(validator, selectedBy, old(State()), groups) == Pass(validator, selectedBy, State(), groups[i..])
        decreases |groups| - i
      {
        assert groups[i..][1..] == groups[i + 1..];
        improved := TryCandidate(groups[i].members);
        if improved {
          return;
        }
        i := i + 1;
      }
      return false;
    }

    /** `guided_search`. */
    method GuidedSearch(maxIterations: nat) returns (r: ConfigCandidate)
      modifies this
      ensures Baseline(validator, kconfig).result != Some(Passed) ==>
        r.Value() == Baseline(validator, kconfig)
        && bestConfig == old(bestConfig) && testedConfigs == old(testedConfigs)
      ensures Baseline(validator, kconfig).result == Some(Passed) ==>
        r == bestConfig && bestConfig != null
        && State() == Search(validator, selectedBy, St(Baseline(validator, kconfig), old(Values(testedConfigs))),
                             Candidates(kconfig, analyzer.graph, sccs), maxIterations)
    {
      var bestCandidate, result := ValidateBaseline();
      if result != Passed {
        return bestCandidate;
      }
      bestConfig := bestCandidate;
      var candidates := IdentifyRemovalCandidates();
      RunPasses(candidates, maxIterations);
      r := bestConfig;
    }

    /** The baseline candidate of `guided_search`, validated. */
    method ValidateBaseline() returns (c: ConfigCandidate, r: ValidationResult)
      ensures fresh(c) && c.Value() == Baseline(validator, kconfig) && r == c.Value().result.value
    {
      var baseConfig := GetCurrentConfig();
      c := new ConfigCandidate(baseConfig, {});
      r := ValidateConfig(validator, c);
    }

    /** The iterations of `guided_search`: at most `maxIterations` passes, stopping after a
        pass without improvement. */
    method RunPasses(candidates: seq<Group>, maxIterations: nat)
      requires bestConfig != null
      modifies this
      ensures bestConfig != null
      ensures State() == Search(validator, selectedBy, old(State()), candidates, maxIterations)
    {
      var iteration := 0;
      while iteration < maxIterations
        invariant 0 <= iteration <= maxIterations && bestConfig != null
        invariant Search(validator, selectedBy, old(State()), candidates, maxIterations)
          == Search(validator, selectedBy, State(), candidates, maxIterations - iteration)
        decreases maxIterations - iteration
      {
        var improved := RunPass(candidates);
        if !improved {
          break;
        }
        iteration := iteration + 1;
      }
    }

    /** `save_results`: the report and the `.config` lines, or nothing when the source
        would raise. */
    method SaveResults() returns (saved: Option<(Report, seq<string>)>)
      ensures saved == Results(kconfig, if bestConfig == null then None else Some(bestConfig.Value()), |testedConfigs|)
    {
      var base := GetCurrentConfig();
      if bestConfig == null || Size(base) == 0 {
        return None;
      }
      var b := bestConfig;
      var report := Report(Size(base), Size(b.config), |b.disabledSymbols|, |testedConfigs|, b.config, b.disabledSymbols);
      var lines := RenderConfig(b.config);
      saved := Some((report, lines));
    }
  }
}
