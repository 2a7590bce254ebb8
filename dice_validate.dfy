/** `ConfigCandidate` and `ConfigValidator`: a candidate configuration and the staged check
    it goes through (Kconfig constraints, build, boot, runtime). kconfiglib, `make` and the
    boot and runtime commands are outside the model; they appear as the oracles of a
    `Validator`. */
module DiceValidate {
  import opened Wrappers
  import opened Text
  import opened Dicts
  import opened DiceKconfig

  /** `ValidationResult`; `Passed` is `SUCCESS`. */
  datatype ValidationResult = Passed | InvalidConfig | BuildFail | BootFail | RuntimeFail

  /** A candidate's fields as a value: its configuration, the symbols it disables, its
      validation result and its size reduction (`None` until set). */
  datatype Cand = Cand(config: Dict, disabled: set<string>, result: Option<ValidationResult>,
                       reduction: Option<nat>)

  /** `ConfigCandidate`; `validate_config` and the search update its result and reduction in
      place. `build_time` (a wall-clock measurement) is not modelled. */
  class ConfigCandidate {
    var config: Dict
    var disabledSymbols: set<string>
    var validationResult: Option<ValidationResult>
    var sizeReduction: Option<nat>

    function Value(): Cand
      reads this
    {
      Cand(config, disabledSymbols, validationResult, sizeReduction)
    }

    constructor (config: Dict, disabledSymbols: set<string>)
      ensures Value() == Cand(config, disabledSymbols, None, None)
    {
      this.config := config;
      this.disabledSymbols := disabledSymbols;
      validationResult := None;
      sizeReduction := None;
    }
  }

  /** A `user_value` as kconfiglib stores it: the int 0, 1 or 2 for a bool or tristate
      symbol, the assigned text for a string, int or hex symbol. */
  datatype UserValue = TriValue(tri: int) | TextValue(text: string)

  /** A symbol after the assignments: its `user_value` and its computed `str_value`. */
  datatype SymState = SymState(userValue: Option<UserValue>, strValue: string)

  /** Python's `==` between the string `str_value` and a user value: a string never equals
      an int. */
  predicate SameValue(strValue: string, u: UserValue) {
    u.TextValue? && strValue == u.text
  }

  /** kconfiglib as the constraint check uses it: the names `kconf.syms` knows, and the state
      of every symbol after `set_value` of the given assignments in order (`None` when
      loading the tree or an assignment raises). */
  datatype KconfigOracle = KconfigOracle(known: set<string>,
                                         evaluate: seq<(string, string)> -> Option<string -> SymState>)

  /** The validator's view of the outside world: kconfiglib, whether `make` succeeds for a
      configuration, and whether the boot and runtime commands pass after building it
      (`None` when the command is unset or empty). */
  datatype Validator = Validator(kconfig: KconfigOracle, build: Dict -> bool,
                                 boot: Option<Dict -> bool>, runtime: Option<Dict -> bool>)

  /** `full[7:] if full.startswith("CONFIG_") else full`. */
  function SymName(key: string): (name: string)
    ensures StartsWith(key, Prefix) ==> Prefix + name == key
    ensures !StartsWith(key, Prefix) ==> name == key
  {
    if StartsWith(key, Prefix) then key[|Prefix|..] else key
  }

  /** The `set_value` calls of the constraint check: `(name, value)` for each entry, in key
      order, whose name kconfiglib knows. */
  function Assignments(keys: seq<string>, vals: map<string, string>, known: set<string>): seq<(string, string)> {
    if keys == [] then []
    else
      var front := Assignments(keys[..|keys| - 1], vals, known);
      var key := keys[|keys| - 1];
      if key in vals && SymName(key) in known then front + [(SymName(key), vals[key])] else front
  }

  /** The test `user_value is not None and str_value != user_value` does not fire: there is
      no user value, or the computed string equals it as Python compares them. */
  predicate Stuck(s: SymState) {
    s.userValue.None? || SameValue(s.strValue, s.userValue.value)
  }

  /** `_validate_kconfig_constraints`: evaluation succeeds and every applied symbol's value
      stuck. */
  function ConstraintsHold(o: KconfigOracle, d: Dict): bool {
    var applied := Assignments(d.keys, d.vals, o.known);
    match o.evaluate(applied)
    case None => false
    case Some(state) => forall i :: 0 <= i < |applied| ==> Stuck(state(applied[i].0))
  }

  /** `validate_config`: the first stage that fails decides the result. */
  function Verdict(v: Validator, d: Dict): ValidationResult {
    if !ConstraintsHold(v.kconfig, d) then InvalidConfig
    else if !v.build(d) then BuildFail
    else if v.boot.Some? && !v.boot.value(d) then BootFail
    else if v.runtime.Some? && !v.runtime.value(d) then RuntimeFail
    else Passed
  }

  /** `_validate_kconfig_constraints`: the assignment loop, then the check loop. */
  method ValidateKconfigConstraints(o: KconfigOracle, d: Dict) returns (ok: bool)
    ensures ok == ConstraintsHold(o, d)
  {
    var applied: seq<(string, string)> := [];
    for k := 0 to |d.keys|
      invariant applied == Assignments(d.keys[..k], d.vals, o.known)
    {
      assert d.keys[..k + 1][..k] == d.keys[..k];
      var key := d.keys[k];
      var name := SymName(key);
      if key in d.vals && name in o.known {
        applied := applied + [(name, d.vals[key])];
      }
    }
    assert d.keys[..|d.keys|] == d.keys;
    var outcome := o.evaluate(applied);
    if outcome.None? {
      return false;
    }
    var state := outcome.value;
    for i := 0 to |applied|
      invariant forall j :: 0 <= j < i ==> Stuck(state(applied[j].0))
    {
      var s := state(applied[i].0);
      if s.userValue.Some? && !SameValue(s.strValue, s.userValue.value) {
        return false;
      }
    }
    return true;
  }

  /** `validate_config`: runs the stages in order and records the result on the candidate. */
  method ValidateConfig(v: Validator, c: ConfigCandidate) returns (r: ValidationResult)
    modifies c
    ensures r == Verdict(v, old(c.config))
    ensures c.Value() == old(c.Value()).(result := Some(r))
  {
    var ok := ValidateKconfigConstraints(v.kconfig, c.config);
    if !ok {
      r := InvalidConfig;
    } else if !v.build(c.config) {
      r := BuildFail;
    } else if v.boot.Some? && !v.boot.value(c.config) {
      r := BootFail;
    } else if v.runtime.Some? && !v.runtime.value(c.config) {
      r := RuntimeFail;
    } else {
      r := Passed;
    }
    c.validationResult := Some(r);
  }
}
