/** Python's insertion-ordered `dict` from strings to strings, as the debloater uses it
    for configurations (`CONFIG_FOO` to `y`, `m`, `n` or a value). */
module Dicts {
  import opened Text

  /** The keys in insertion order, and the entries. */
  datatype Dict = Dict(keys: seq<string>, vals: map<string, string>)

  /** No key twice, and the key list and the entries agree. */
  predicate Valid(d: Dict) {
    (forall i, j :: 0 <= i < j < |d.keys| ==> d.keys[i] != d.keys[j])
    && (forall k :: k in d.vals ==> k in d.keys)
    && (forall i :: 0 <= i < |d.keys| ==> d.keys[i] in d.vals)
  }

  const Empty: Dict := Dict([], map[])

  /** `d[k] = v`: a new key goes to the end, an existing one keeps its place. */
  function Set(d: Dict, k: string, v: string): (r: Dict)
    ensures Valid(d) ==> Valid(r)
    ensures k in r.vals && r.vals[k] == v
    ensures forall x :: x != k ==> (x in r.vals <==> x in d.vals) && (x in d.vals ==> r.vals[x] == d.vals[x])
    ensures d.keys <= r.keys && |r.keys| <= |d.keys| + 1
  {
    if k in d.vals then Dict(d.keys, d.vals[k := v]) else Dict(d.keys + [k], d.vals[k := v])
  }

  /** `len(d)`. */
  function Size(d: Dict): nat {
    |d.keys|
  }

  /** Setting a key grows the dict by one exactly when the key is new. */
  lemma SetSize(d: Dict, k: string, v: string)
    requires Valid(d)
    ensures Size(Set(d, k, v)) == Size(d) + (if k in d.vals then 0 else 1)
  {
  }
}

/** The part of a loaded Kconfig tree the debloater looks at, as kconfiglib presents it:
    the defined symbols with their current values and relationships, the choices, and the
    menu tree. Kconfig parsing and evaluation themselves are not modelled. */
module DiceKconfig {
  import opened Wrappers
  import opened Text
  import opened Dicts

  /** What `expr_items` yields for an expression: symbols (possibly constant ones such as
      `y`) and choices. */
  datatype Item = SymItem(name: string, isConstant: bool) | ChoiceItem(id: string)

  /** A `select` or `imply` line: its target and the items of its `if` condition. */
  datatype Link = Link(target: string, cond: seq<Item>)

  /** A defined symbol: its name, `str_value`, the items of its `depends on`, its selects
      and implies, and the id of the choice it belongs to. A choice id stands for the
      `choice_<object id>` node name. */
  datatype Symbol = Symbol(name: string, strValue: string, directDep: seq<Item>,
                           selects: seq<Link>, implies: seq<Link>, choice: Option<string>)

  datatype Choice = Choice(id: string, syms: seq<string>)

  /** What a menu-tree node shows. */
  datatype MenuItem = SymbolEntry(name: string) | Menu | OtherEntry

  /** A menu-tree node with its prompt text and its children (`node.list`, then each
      child's `next`). */
  datatype MenuNode = MenuNode(item: MenuItem, prompt: string, children: seq<MenuNode>)

  datatype Kconfig = Kconfig(syms: seq<Symbol>, choices: seq<Choice>, top: MenuNode)

  const Prefix: string := "CONFIG_"

  /** `get_current_config`: `CONFIG_<name>` to the value of each symbol whose value is not
      `n`, in symbol order. */
  function CurrentConfig(syms: seq<Symbol>): (d: Dict)
    ensures Valid(d)
  {
    if syms == [] then Empty
    else
      var s := syms[|syms| - 1];
      var front := CurrentConfig(syms[..|syms| - 1]);
      if s.strValue != "n" then Set(front, Prefix + s.name, s.strValue) else front
  }

  /** The current configuration holds exactly the enabled symbols: a key is present iff it
      is `CONFIG_` plus the name of a symbol whose value is not `n`, and no entry is `n`. */
  lemma {:induction false} CurrentConfigEntries(syms: seq<Symbol>, key: string)
    ensures key in CurrentConfig(syms).vals <==>
      exists i :: 0 <= i < |syms| && syms[i].strValue != "n" && Prefix + syms[i].name == key
    ensures key in CurrentConfig(syms).vals ==> CurrentConfig(syms).vals[key] != "n"
  {
    if syms != [] {
      var front := syms[..|syms| - 1];
      CurrentConfigEntries(front, key);
      if exists i :: 0 <= i < |syms| && syms[i].strValue != "n" && Prefix + syms[i].name == key {
        var i :| 0 <= i < |syms| && syms[i].strValue != "n" && Prefix + syms[i].name == key;
        if i < |syms| - 1 {
          assert front[i] == syms[i];
        }
      }
      if exists i :: 0 <= i < |front| && front[i].strValue != "n" && Prefix + front[i].name == key {
        var i :| 0 <= i < |front| && front[i].strValue != "n" && Prefix + front[i].name == key;
        assert syms[i] == front[i];
      }
    }
  }
}
