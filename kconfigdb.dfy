/** `process_file` of the kconfig database builder. It streams a source file's lines. It keeps
    a stack of open `#if` blocks, each holding the branches seen so far. A branch's body runs
    from the line after its directive to the line before the next directive of the same
    block. Rows are emitted at three points:
    - at `#endif`, one row per configuration name in each branch's expression;
    - on every other line, one row per name inside an `IS_*` helper macro;
    - on every other line, one row per bare `CONFIG_` mention. */
module KconfigDb {
  import opened Wrappers
  import opened Text
  import opened ConfigScan

  /** One branch of a conditional block. `endBody` is the inclusive last line of its body;
      it stays unset while the branch is open. */
  datatype Branch = Branch(kind: string, exprText: string, directiveLine: int, startBody: int, endBody: Option<int>)

  datatype IfStackEntry = IfStackEntry(branches: seq<Branch>)

  /** One CSV row: configuration name, expression, source file, first and last line. */
  datatype Row = Row(cfg: string, expr: string, file: string, start: int, end: int)

  /** The directives that open a block. */
  const OpenKinds: set<string> := {"if", "ifdef", "ifndef"}

  /** Rows are in strictly ascending name order (so no name twice). */
  predicate CfgSorted(rows: seq<Row>) {
    forall i, j :: 0 <= i < j < |rows| ==> StrLess(rows[i].cfg, rows[j].cfg)
  }

  /** `name` has a row in `rows`. */
  predicate HasRow(rows: seq<Row>, name: string) {
    exists k :: 0 <= k < |rows| && rows[k].cfg == name
  }

  /** One row per name, in the names' order, all with the same expression and lines. */
  function RowsFor(names: seq<string>, expr: string, file: string, start: int, end: int): (r: seq<Row>)
    ensures |r| == |names|
    ensures forall k :: 0 <= k < |r| ==> r[k] == Row(names[k], expr, file, start, end)
  {
    seq(|names|, k requires 0 <= k < |names| => Row(names[k], expr, file, start, end))
  }

  /** `flush_branch_rows`: a row for each distinct name of `cfgs` in ascending order, all
      sharing the expression and the line range; an unset end falls back to the start. */
  function FlushRows(cfgs: seq<string>, expr: string, file: string, start: int, end: Option<int>): (r: seq<Row>)
    ensures CfgSorted(r)
    ensures forall x :: HasRow(r, x) <==> x in cfgs
    ensures forall k :: 0 <= k < |r| ==>
      r[k].expr == expr && r[k].file == file && r[k].start == start
      && r[k].end == (if end.Some? then end.value else start)
  {
    var names := SortedUnique(cfgs);
    var r := RowsFor(names, expr, file, start, if end.Some? then end.value else start);
    assert forall x :: HasRow(r, x) ==> x in Elems(names);
    assert forall x :: x in Elems(names) ==> HasRow(r, x) by {
      forall x | x in Elems(names) ensures HasRow(r, x) {
        var k :| 0 <= k < |names| && names[k] == x;
        assert r[k].cfg == x;
      }
    }
    r
  }

  /** The expression text a branch's rows carry: `#kind expr`, stripped. */
  function BranchExpr(br: Branch): string {
    Strip("#" + br.kind + " " + br.exprText)
  }

  /** The rows one branch emits at `#endif`: none when its expression names no option. */
  function BranchRows(br: Branch, file: string): seq<Row> {
    var expr := BranchExpr(br);
    var cfgs := ExtractConfigs(expr);
    if cfgs == [] then [] else FlushRows(cfgs, expr, file, br.startBody, br.endBody)
  }

  /** The rows a closed block emits, branch after branch. */
  function BlockRows(branches: seq<Branch>, file: string): seq<Row> {
    if branches == [] then []
    else BlockRows(branches[..|branches| - 1], file) + BranchRows(branches[|branches| - 1], file)
  }

  /** The rows one helper-macro use emits on line `lineno`. */
  function MacroUseRows(u: MacroUse, file: string, lineno: int): seq<Row> {
    var cfgs := ExtractConfigs(u.args);
    if cfgs == [] then [] else FlushRows(cfgs, u.macro + "(" + u.args + ")", file, lineno, Some(lineno))
  }

  /** The rows of a line's helper-macro uses, use after use. */
  function MacroUsesRows(uses: seq<MacroUse>, file: string, lineno: int): seq<Row> {
    if uses == [] then []
    else MacroUsesRows(uses[..|uses| - 1], file, lineno) + MacroUseRows(uses[|uses| - 1], file, lineno)
  }

  /** Some helper-macro name occurs in the line (the cheap test before the pattern runs). */
  predicate MentionsMacro(line: string) {
    exists k :: 0 <= k < |Macros| && Contains(line, Macros[k])
  }

  /** The macro rows of a non-directive line. */
  function MacroRows(line: string, file: string, lineno: int): seq<Row> {
    if MentionsMacro(line) then MacroUsesRows(FindMacros(line, 0), file, lineno) else []
  }

  /** `defined(X)` for the name `x`, as it reads once spaces are removed. */
  function DefinedCall(x: string): string {
    "defined(" + x + ")"
  }

  /** The generic rows for `names`, leaving out each name whose `defined(...)` call occurs
      in the space-free line. */
  function KeptRows(names: seq<string>, squeezed: string, snippet: string, file: string, lineno: int): (r: seq<Row>)
    ensures forall k :: 0 <= k < |r| ==>
      r[k] == Row(r[k].cfg, snippet, file, lineno, lineno) && r[k].cfg in names
      && !Contains(squeezed, DefinedCall(r[k].cfg))
    ensures forall x :: x in names && !Contains(squeezed, DefinedCall(x)) ==> HasRow(r, x)
  {
    if names == [] then []
    else
      var x := names[|names| - 1];
      var front := KeptRows(names[..|names| - 1], squeezed, snippet, file, lineno);
      assert forall y :: y in names ==> y in names[..|names| - 1] || y == x by {
        assert names == names[..|names| - 1] + [x];
      }
      if Contains(squeezed, DefinedCall(x)) then front
      else
        assert forall y :: HasRow(front, y) ==> HasRow(front + [Row(x, snippet, file, lineno, lineno)], y) by {
          forall y | HasRow(front, y) ensures HasRow(front + [Row(x, snippet, file, lineno, lineno)], y) {
            var k :| 0 <= k < |front| && front[k].cfg == y;
            assert (front + [Row(x, snippet, file, lineno, lineno)])[k] == front[k];
          }
        }
        assert (front + [Row(x, snippet, file, lineno, lineno)])[|front|].cfg == x;
        front + [Row(x, snippet, file, lineno, lineno)]
  }

  /** The generic rows of a non-directive line: each `CONFIG_` match once, in name order,
      showing the line's snippet. */
  function GenericRows(line: string, file: string, lineno: int): seq<Row> {
    if !Contains(line, ConfigPrefix) then []
    else
      var found := FindConfigs(line, 0);
      if found == [] then []
      else KeptRows(SortedUnique(found), RemoveSpaces(line), Snippet(line), file, lineno)
  }

  /** Everything a non-directive line emits: macro rows, then generic rows. */
  function LineRows(line: string, file: string, lineno: int): seq<Row> {
    MacroRows(line, file, lineno) + GenericRows(line, file, lineno)
  }

  /** Closes the last branch of a block at `lineno - 1` if it is still open. */
  function CloseLast(e: IfStackEntry, lineno: int): IfStackEntry {
    if e.branches == [] then e
    else
      var last := e.branches[|e.branches| - 1];
      if last.endBody.Some? then e
      else IfStackEntry(e.branches[..|e.branches| - 1] + [last.(endBody := Some(lineno - 1))])
  }

  /** The scanner's state between lines: the open blocks and the rows written so far. */
  datatype Scan = Scan(stack: seq<IfStackEntry>, rows: seq<Row>)

  /** One line of `process_file`. */
  function Step(st: Scan, file: string, lineno: int, line: string): Scan {
    StepWith(st, file, lineno, line, ParseDirective(line))
  }

  /** One line of `process_file`, given what the directive pattern made of it. */
  function StepWith(st: Scan, file: string, lineno: int, line: string, m: Option<Directive>): Scan {
    match m
    case None => Scan(st.stack, st.rows + LineRows(line, file, lineno))
    case Some(d) =>
      if d.kind in OpenKinds then
        Scan(st.stack + [IfStackEntry([Branch(d.kind, d.tail, lineno, lineno + 1, None)])], st.rows)
      else if st.stack == [] then st
      else
        var top := CloseLast(st.stack[|st.stack| - 1], lineno);
        var below := st.stack[..|st.stack| - 1];
        if d.kind == "endif" then
          Scan(below, st.rows + BlockRows(top.branches, file))
        else if top.branches == [] then st
        else
          var br := Branch(d.kind, if d.kind == "else" then "" else d.tail, lineno, lineno + 1, None);
          Scan(below + [IfStackEntry(top.branches + [br])], st.rows)
  }

  /** The state after the first `|lines|` lines, numbered from 1. */
  function ScanLines(lines: seq<string>, file: string): Scan {
    if lines == [] then Scan([], [])
    else Step(ScanLines(lines[..|lines| - 1], file), file, |lines|, lines[|lines| - 1])
  }

  /** The rows `process_file` writes for a file: whatever blocks are still open at the end
      write nothing. */
  function FileRows(lines: seq<string>, file: string): seq<Row> {
    ScanLines(lines, file).rows
  }

  // ------------------------------------------------------------------ the scanner

  /** `flush_branch_rows`, writing row after row. */
  method FlushBranchRows(cfgs: seq<string>, expr: string, file: string, start: int, end: Option<int>)
    returns (out: seq<Row>)
    ensures out == FlushRows(cfgs, expr, file, start, end)
  {
    var last := if end.None? then start else end.value;
    var names := SortedUnique(cfgs);
    out := [];
    for k := 0 to |names|
      invariant out == RowsFor(names[..k], expr, file, start, last)
    {
      out := out + [Row(names[k], expr, file, start, last)];
    }
    assert names[..|names|] == names;
  }

  /** The rows of a block closed by `#endif`, branch after branch. */
  method EmitBlock(branches: seq<Branch>, file: string) returns (out: seq<Row>)
    ensures out == BlockRows(branches, file)
  {
    out := [];
    for k := 0 to |branches|
      invariant out == BlockRows(branches[..k], file)
    {
      var rows := EmitBranch(branches[k], file);
      assert branches[..k + 1][..k] == branches[..k];
      out := out + rows;
    }
    assert branches[..|branches|] == branches;
  }

  /** The rows of one branch of a closed block. */
  method EmitBranch(br: Branch, file: string) returns (out: seq<Row>)
    ensures out == BranchRows(br, file)
  {
    out := [];
    var expr := Strip("#" + br.kind + " " + br.exprText);
    var cfgs := ExtractConfigs(expr);
    if cfgs != [] {
      out := FlushBranchRows(cfgs, expr, file, br.startBody, br.endBody);
    }
  }

  /** The rows one helper-macro use writes, name after name. */
  method EmitUseRows(u: MacroUse, file: string, lineno: int) returns (out: seq<Row>)
    ensures out == MacroUseRows(u, file, lineno)
  {
    out := [];
    var cfgs := ExtractConfigs(u.args);
    if cfgs != [] {
      var expr := u.macro + "(" + u.args + ")";
      var names := SortedUnique(cfgs);
      for j := 0 to |names|
        invariant out == RowsFor(names[..j], expr, file, lineno, lineno)
      {
        out := out + [Row(names[j], expr, file, lineno, lineno)];
      }
      assert names[..|names|] == names;
    }
  }

  /** The rows of a line's helper-macro uses, use after use. */
  method EmitUsesRows(uses: seq<MacroUse>, file: string, lineno: int) returns (out: seq<Row>)
    ensures out == MacroUsesRows(uses, file, lineno)
  {
    out := [];
    for k := 0 to |uses|
      invariant out == MacroUsesRows(uses[..k], file, lineno)
    {
      var rows := EmitUseRows(uses[k], file, lineno);
      out := out + rows;
      assert uses[..k + 1][..k] == uses[..k];
    }
    assert uses[..|uses|] == uses;
  }

  /** The helper-macro rows of a non-directive line. */
  method EmitMacroRows(line: string, file: string, lineno: int) returns (out: seq<Row>)
    ensures out == MacroRows(line, file, lineno)
  {
    out := [];
    if MentionsMacro(line) {
      out := EmitUsesRows(FindMacros(line, 0), file, lineno);
    }
  }

  /** The generic `CONFIG_` rows of a non-directive line. */
  method EmitGenericRows(line: string, file: string, lineno: int) returns (out: seq<Row>)
    ensures out == GenericRows(line, file, lineno)
  {
    out := [];
    if Contains(line, ConfigPrefix) {
      var found := FindConfigs(line, 0);
      if found != [] {
        var snippet := Snippet(line);
        var names := SortedUnique(found);
        var squeezed := RemoveSpaces(line);
        for k := 0 to |names|
          invariant out == KeptRows(names[..k], squeezed, snippet, file, lineno)
        {
          if !Contains(squeezed, DefinedCall(names[k])) {
            out := out + [Row(names[k], snippet, file, lineno, lineno)];
          }
          assert names[..k + 1][..k] == names[..k];
        }
        assert names[..|names|] == names;
      }
    }
  }

  /** A directive line of `process_file`: the stack update, and at `#endif` the closed
      block's rows. */
  method ApplyDirective(stack: seq<IfStackEntry>, rows: seq<Row>, file: string, lineno: int, line: string, d: Directive)
    returns (stack': seq<IfStackEntry>, rows': seq<Row>)
    requires d.kind in Directives
    ensures Scan(stack', rows') == StepWith(Scan(stack, rows), file, lineno, line, Some(d))
  {
    stack', rows' := stack, rows;
    var directive := d.kind;
    if directive in OpenKinds {
      stack' := stack + [IfStackEntry([Branch(directive, d.tail, lineno, lineno + 1, None)])];
    } else if directive == "elif" || directive == "else" {
      if stack != [] && stack[|stack| - 1].branches != [] {
        var top := CloseLast(stack[|stack| - 1], lineno);
        var br := Branch(directive, if directive == "else" then "" else d.tail, lineno, lineno + 1, None);
        stack' := stack[..|stack| - 1] + [IfStackEntry(top.branches + [br])];
      }
    } else if stack != [] {
      var top := CloseLast(stack[|stack| - 1], lineno);
      var out := EmitBlock(top.branches, file);
      rows' := rows + out;
      stack' := stack[..|stack| - 1];
    }
  }

  /** One line of `process_file`: a directive updates the block stack (and `#endif` writes
      the closed block's rows); any other line writes its macro and generic rows. */
  method ProcessLine(stack: seq<IfStackEntry>, rows: seq<Row>, file: string, lineno: int, line: string)
    returns (stack': seq<IfStackEntry>, rows': seq<Row>)
    ensures Scan(stack', rows') == Step(Scan(stack, rows), file, lineno, line)
  {
    var m := ParseDirective(line);
    if m.Some? {
      stack', rows' := ApplyDirective(stack, rows, file, lineno, line, m.value);
    } else {
      var macroRows := EmitMacroRows(line, file, lineno);
      var genericRows := EmitGenericRows(line, file, lineno);
      stack', rows' := stack, rows + (macroRows + genericRows);
      assert macroRows + genericRows == LineRows(line, file, lineno);
    }
  }

  /** `process_file` over the file's lines: the rows it writes, in order. */
  method ProcessFile(lines: seq<string>, file: string) returns (rows: seq<Row>)
    ensures rows == FileRows(lines, file)
  {
    var stack: seq<IfStackEntry> := [];
    rows := [];
    for k := 0 to |lines|
      invariant Scan(stack, rows) == ScanLines(lines[..k], file)
    {
      stack, rows := ProcessLine(stack, rows, file, k + 1, lines[k]);
      assert lines[..k + 1][..k] == lines[..k];
    }
    assert lines[..|lines|] == lines;
  }
}
