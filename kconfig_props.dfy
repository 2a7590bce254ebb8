/** What `process_file` guarantees about the blocks it tracks and the rows it writes. */
module KconfigProps {
  import opened Wrappers
  import opened Text
  import opened ConfigScan
  import opened KconfigDb

  // ------------------------------------------------------------- one line at a time

  /** The directive pattern reports one of its six keywords. */
  predicate Known(m: Option<Directive>) {
    m.Some? ==> m.value.kind in Directives
  }

  lemma ParsedKnown(line: string)
    ensures Known(ParseDirective(line))
  {
  }

  /** A keyword that neither opens nor ends a block continues one. */
  lemma OtherKinds(k: string)
    requires k in Directives && k !in OpenKinds && k != "endif"
    ensures k == "elif" || k == "else"
  {
  }

  /** `#if`, `#ifdef` and `#ifndef` push one block holding one open branch whose body
      starts on the next line, and write nothing. */
  lemma OpenStep(st: Scan, file: string, n: int, line: string, d: Directive)
    requires d.kind in OpenKinds
    ensures StepWith(st, file, n, line, Some(d)).stack == st.stack + [IfStackEntry([Branch(d.kind, d.tail, n, n + 1, None)])]
    ensures StepWith(st, file, n, line, Some(d)).rows == st.rows
  {
  }

  /** `#elif`, `#else` and `#endif` with no open block are ignored. */
  lemma UnbalancedStep(st: Scan, file: string, n: int, line: string, d: Directive)
    requires d.kind !in OpenKinds && st.stack == []
    ensures StepWith(st, file, n, line, Some(d)) == st
  {
  }

  /** `#endif` closes the top block's last branch, writes that block's rows and pops
      exactly that block. */
  lemma EndifStep(st: Scan, file: string, n: int, line: string, d: Directive)
    requires d.kind == "endif" && st.stack != []
    ensures StepWith(st, file, n, line, Some(d)).stack == st.stack[..|st.stack| - 1]
    ensures StepWith(st, file, n, line, Some(d)).rows
            == st.rows + BlockRows(CloseLast(st.stack[|st.stack| - 1], n).branches, file)
  {
  }

  /** `#elif` and `#else` keep the stack's depth and the blocks below the top, write
      nothing, and append to the top block (its last branch closed) a new open branch
      whose body starts on the next line; an `#else` branch has an empty expression. */
  lemma ContinueStep(st: Scan, file: string, n: int, line: string, d: Directive)
    requires d.kind == "elif" || d.kind == "else"
    requires st.stack != [] && st.stack[|st.stack| - 1].branches != []
    ensures var st' := StepWith(st, file, n, line, Some(d));
      |st'.stack| == |st.stack| && st'.stack[..|st.stack| - 1] == st.stack[..|st.stack| - 1]
      && st'.rows == st.rows
      && st'.stack[|st.stack| - 1].branches
         == CloseLast(st.stack[|st.stack| - 1], n).branches
            + [Branch(d.kind, if d.kind == "else" then "" else d.tail, n, n + 1, None)]
  {
  }

  /** Closing a block's last branch sets its end to the line before the directive when it
      was open, and touches nothing else. */
  lemma CloseLastEffect(e: IfStackEntry, n: int)
    requires e.branches != []
    ensures var bs := e.branches; var bs' := CloseLast(e, n).branches;
      |bs'| == |bs| && bs'[..|bs| - 1] == bs[..|bs| - 1]
      && bs'[|bs| - 1] == bs[|bs| - 1].(endBody := if bs[|bs| - 1].endBody.None? then Some(n - 1) else bs[|bs| - 1].endBody)
  {
  }

  // ------------------------------------------------------ the shape of the block stack

  /** A branch opened on a line in `1..n`, whose body starts on the next line; an `#else`
      branch has no expression. */
  predicate BranchOk(b: Branch, n: int) {
    1 <= b.directiveLine <= n && b.startBody == b.directiveLine + 1
    && (b.kind == "else" ==> b.exprText == "")
  }

  /** Consecutive branches: the first one's body ends on the line before the second one's
      directive. */
  predicate Adjacent(b: Branch, c: Branch) {
    b.directiveLine < c.directiveLine && b.endBody == Some(c.directiveLine - 1)
  }

  /** The shape of an open block `n` lines into the file: an opening branch, then `#elif`
      and `#else` branches, each closed where the next begins, and the last one open. */
  predicate EntryOk(e: IfStackEntry, n: int) {
    var bs := e.branches;
    bs != [] && bs[0].kind in OpenKinds && bs[|bs| - 1].endBody.None?
    && (forall i :: 0 <= i < |bs| ==> BranchOk(bs[i], n))
    && (forall i :: 0 < i < |bs| ==> bs[i].kind == "elif" || bs[i].kind == "else")
    && (forall i :: 0 <= i < |bs| - 1 ==> Adjacent(bs[i], bs[i + 1]))
  }

  predicate StackOk(stack: seq<IfStackEntry>, n: int) {
    forall i :: 0 <= i < |stack| ==> EntryOk(stack[i], n)
  }

  /** A closed branch whose body lies within lines `1..n`; an empty body (two directives
      on consecutive lines) ends one line before it starts. */
  predicate RangeOk(b: Branch, n: int) {
    b.endBody.Some? && 2 <= b.startBody <= b.endBody.value + 1 && b.endBody.value <= n
  }

  /** A row naming a configuration option, over a line range within `1..n` (possibly empty,
      ending one line before it starts). */
  predicate RowOk(r: Row, n: int) {
    IsConfigName(r.cfg) && 1 <= r.start <= r.end + 1 && r.end <= n
  }

  predicate RowsOk(rows: seq<Row>, n: int) {
    forall k :: 0 <= k < |rows| ==> RowOk(rows[k], n)
  }

  /** Rows for a single line `n`. */
  predicate OnLine(rows: seq<Row>, n: int) {
    forall k :: 0 <= k < |rows| ==> IsConfigName(rows[k].cfg) && rows[k].start == n && rows[k].end == n
  }

  lemma EntryOkLater(e: IfStackEntry, n: int, m: int)
    requires EntryOk(e, n) && n <= m
    ensures EntryOk(e, m)
  {
    forall i | 0 <= i < |e.branches| ensures BranchOk(e.branches[i], m) {
      assert BranchOk(e.branches[i], n);
    }
  }

  lemma StackOkLater(stack: seq<IfStackEntry>, n: int, m: int)
    requires StackOk(stack, n) && n <= m
    ensures StackOk(stack, m)
  {
    forall i | 0 <= i < |stack| ensures EntryOk(stack[i], m) {
      EntryOkLater(stack[i], n, m);
    }
  }

  lemma RowsOkLater(rows: seq<Row>, n: int, m: int)
    requires RowsOk(rows, n) && n <= m
    ensures RowsOk(rows, m)
  {
    forall k | 0 <= k < |rows| ensures RowOk(rows[k], m) {
      assert RowOk(rows[k], n);
    }
  }

  lemma RowsOkAppend(a: seq<Row>, b: seq<Row>, n: int)
    requires RowsOk(a, n) && RowsOk(b, n)
    ensures RowsOk(a + b, n)
  {
    forall k | 0 <= k < |a + b| ensures RowOk((a + b)[k], n) {
      if k < |a| { assert (a + b)[k] == a[k]; } else { assert (a + b)[k] == b[k - |a|]; }
    }
  }

  lemma OnLineAppend(a: seq<Row>, b: seq<Row>, n: int)
    requires OnLine(a, n) && OnLine(b, n)
    ensures OnLine(a + b, n)
  {
    forall k | 0 <= k < |a + b|
      ensures IsConfigName((a + b)[k].cfg) && (a + b)[k].start == n && (a + b)[k].end == n
    {
      if k < |a| { assert (a + b)[k] == a[k]; } else { assert (a + b)[k] == b[k - |a|]; }
    }
  }

  /** At `#endif` on line `n` every branch of the top block is closed within `1..n-1`, so
      `flush_branch_rows` never needs its fallback for an unset end. */
  lemma EndifClosesAll(e: IfStackEntry, n: int)
    requires EntryOk(e, n - 1)
    ensures forall i :: 0 <= i < |CloseLast(e, n).branches| ==> RangeOk(CloseLast(e, n).branches[i], n - 1)
  {
    var bs := e.branches;
    var bs' := CloseLast(e, n).branches;
    forall i | 0 <= i < |bs'| ensures RangeOk(bs'[i], n - 1) {
      assert BranchOk(bs[i], n - 1);
      if i < |bs| - 1 {
        assert bs'[i] == bs[i];
        assert Adjacent(bs[i], bs[i + 1]) && BranchOk(bs[i + 1], n - 1);
      }
    }
  }

  /** The rows of one closed branch lie within its range. */
  lemma BranchRowsOk(b: Branch, file: string, n: int)
    requires RangeOk(b, n)
    ensures RowsOk(BranchRows(b, file), n)
  {
    var rows := BranchRows(b, file);
    var cfgs := ExtractConfigs(BranchExpr(b));
    forall k | 0 <= k < |rows| ensures RowOk(rows[k], n) {
      assert HasRow(rows, rows[k].cfg);
      assert rows[k].cfg in cfgs;
    }
  }

  lemma {:induction false} BlockRowsOk(bs: seq<Branch>, file: string, n: int)
    requires forall i :: 0 <= i < |bs| ==> RangeOk(bs[i], n)
    ensures RowsOk(BlockRows(bs, file), n)
  {
    if bs != [] {
      BlockRowsOk(bs[..|bs| - 1], file, n);
      BranchRowsOk(bs[|bs| - 1], file, n);
      RowsOkAppend(BlockRows(bs[..|bs| - 1], file), BranchRows(bs[|bs| - 1], file), n);
    }
  }

  /** Rows of helper-macro uses on line `n` are rows for that line. */
  lemma {:induction false} MacroUsesOnLine(uses: seq<MacroUse>, file: string, n: int)
    ensures OnLine(MacroUsesRows(uses, file, n), n)
  {
    if uses != [] {
      MacroUsesOnLine(uses[..|uses| - 1], file, n);
      var u := uses[|uses| - 1];
      var rows := MacroUseRows(u, file, n);
      forall k | 0 <= k < |rows| ensures IsConfigName(rows[k].cfg) {
        assert HasRow(rows, rows[k].cfg);
      }
      OnLineAppend(MacroUsesRows(uses[..|uses| - 1], file, n), rows, n);
    }
  }

  /** Everything a non-directive line `n` writes is a row for line `n`. */
  lemma LineRowsOnLine(line: string, file: string, n: int)
    ensures OnLine(LineRows(line, file, n), n)
  {
    MacroUsesOnLine(FindMacros(line, 0), file, n);
    var g := GenericRows(line, file, n);
    if g != [] {
      var found := FindConfigs(line, 0);
      forall k | 0 <= k < |g| ensures IsConfigName(g[k].cfg) {
        assert g[k].cfg in Elems(SortedUnique(found));
      }
    }
    OnLineAppend(MacroRows(line, file, n), g, n);
  }

  lemma OnLineOk(rows: seq<Row>, n: int)
    requires OnLine(rows, n) && n >= 1
    ensures RowsOk(rows, n)
  {
    forall k | 0 <= k < |rows| ensures RowOk(rows[k], n) {
    }
  }

  /** `#elif` or `#else` on line `n` appends an open branch to a well-shaped block and
      leaves it well shaped. */
  lemma ContinueOk(e: IfStackEntry, b: Branch, n: int)
    requires EntryOk(e, n - 1)
    requires (b.kind == "elif" || b.kind == "else") && BranchOk(b, n) && b.directiveLine == n
    requires b.endBody.None?
    ensures EntryOk(IfStackEntry(CloseLast(e, n).branches + [b]), n)
  {
    var bs := e.branches;
    var cs := CloseLast(e, n).branches + [b];
    var L := |bs|;
    assert cs[..L - 1] == bs[..L - 1];
    assert cs[0].kind == bs[0].kind;
    forall i | 0 <= i < |cs| ensures BranchOk(cs[i], n) {
      if i < L {
        assert BranchOk(bs[i], n - 1);
        assert cs[i].directiveLine == bs[i].directiveLine && cs[i].startBody == bs[i].startBody;
        assert cs[i].kind == bs[i].kind && cs[i].exprText == bs[i].exprText;
      }
    }
    forall i | 0 < i < |cs| ensures cs[i].kind == "elif" || cs[i].kind == "else" {
      if i < L { assert cs[i].kind == bs[i].kind; }
    }
    forall i | 0 <= i < |cs| - 1 ensures Adjacent(cs[i], cs[i + 1]) {
      if i < L - 1 {
        assert cs[i] == bs[i] && cs[i + 1].directiveLine == bs[i + 1].directiveLine;
        assert Adjacent(bs[i], bs[i + 1]);
      } else {
        assert BranchOk(bs[L - 1], n - 1);
      }
    }
  }

  /** The stack keeps its shape and the rows stay within the file, line after line. */
  lemma StepOk(st: Scan, file: string, n: int, line: string, m: Option<Directive>)
    requires Known(m)
    requires n >= 1 && StackOk(st.stack, n - 1) && RowsOk(st.rows, n - 1)
    ensures StackOk(StepWith(st, file, n, line, m).stack, n)
    ensures RowsOk(StepWith(st, file, n, line, m).rows, n)
  {
    StackOkLater(st.stack, n - 1, n);
    RowsOkLater(st.rows, n - 1, n);
    match m
    case None =>
      LineRowsOnLine(line, file, n);
      OnLineOk(LineRows(line, file, n), n);
      RowsOkAppend(st.rows, LineRows(line, file, n), n);
    case Some(d) =>
      if d.kind in OpenKinds {
        OpenStepOk(st, file, n, line, d);
      } else if st.stack == [] {
        UnbalancedStep(st, file, n, line, d);
      } else if d.kind == "endif" {
        EndifStepOk(st, file, n, line, d);
      } else {
        OtherKinds(d.kind);
        ContinueStepOk(st, file, n, line, d);
      }
  }

  lemma OpenStepOk(st: Scan, file: string, n: int, line: string, d: Directive)
    requires d.kind in OpenKinds
    requires n >= 1 && StackOk(st.stack, n)
    ensures StackOk(StepWith(st, file, n, line, Some(d)).stack, n)
  {
    OpenStep(st, file, n, line, d);
    var st' := StepWith(st, file, n, line, Some(d));
    var e := IfStackEntry([Branch(d.kind, d.tail, n, n + 1, None)]);
    assert BranchOk(e.branches[0], n);
    assert EntryOk(e, n);
    forall i | 0 <= i < |st'.stack| ensures EntryOk(st'.stack[i], n) {
      if i < |st.stack| { assert st'.stack[i] == st.stack[i]; }
    }
  }

  lemma EndifStepOk(st: Scan, file: string, n: int, line: string, d: Directive)
    requires d.kind == "endif"
    requires n >= 1 && st.stack != [] && StackOk(st.stack, n - 1) && RowsOk(st.rows, n)
    ensures StackOk(StepWith(st, file, n, line, Some(d)).stack, n)
    ensures RowsOk(StepWith(st, file, n, line, Some(d)).rows, n)
  {
    EndifStep(st, file, n, line, d);
    var top := st.stack[|st.stack| - 1];
    var added := BlockRows(CloseLast(top, n).branches, file);
    assert EntryOk(top, n - 1);
    EndifClosesAll(top, n);
    BlockRowsOk(CloseLast(top, n).branches, file, n - 1);
    RowsOkLater(added, n - 1, n);
    RowsOkAppend(st.rows, added, n);
    StackOkLater(st.stack, n - 1, n);
    var below := st.stack[..|st.stack| - 1];
    forall i | 0 <= i < |below| ensures EntryOk(below[i], n) {
      assert below[i] == st.stack[i];
    }
  }

  lemma ContinueStepOk(st: Scan, file: string, n: int, line: string, d: Directive)
    requires d.kind == "elif" || d.kind == "else"
    requires n >= 1 && st.stack != [] && StackOk(st.stack, n - 1)
    ensures StackOk(StepWith(st, file, n, line, Some(d)).stack, n)
    ensures StepWith(st, file, n, line, Some(d)).rows == st.rows
  {
    var top := st.stack[|st.stack| - 1];
    assert EntryOk(top, n - 1);
    ContinueStep(st, file, n, line, d);
    StackOkLater(st.stack, n - 1, n);
    var st' := StepWith(st, file, n, line, Some(d));
    var b := Branch(d.kind, if d.kind == "else" then "" else d.tail, n, n + 1, None);
    ContinueOk(top, b, n);
    forall i | 0 <= i < |st'.stack| ensures EntryOk(st'.stack[i], n) {
      if i < |st.stack| - 1 { assert st'.stack[i] == st.stack[i]; }
    }
  }

  /** After any number of lines, every open block has its expected shape and every row
      written so far names an option over a line range inside the lines read. */
  lemma {:induction false} ScanLinesOk(lines: seq<string>, file: string)
    ensures StackOk(ScanLines(lines, file).stack, |lines|)
    ensures RowsOk(ScanLines(lines, file).rows, |lines|)
  {
    if lines != [] {
      var last := lines[|lines| - 1];
      ScanLinesOk(lines[..|lines| - 1], file);
      ParsedKnown(last);
      StepOk(ScanLines(lines[..|lines| - 1], file), file, |lines|, last, ParseDirective(last));
    }
  }

  /** Every row of a file names an option and covers lines of that file: a branch row from
      the line after its directive to the line before the next directive of its block, a
      single-line row just its line. */
  lemma FileRowsInRange(lines: seq<string>, file: string)
    ensures forall r :: r in FileRows(lines, file) ==>
      IsConfigName(r.cfg) && 1 <= r.start <= r.end + 1 && r.end <= |lines|
  {
    ScanLinesOk(lines, file);
    var rows := FileRows(lines, file);
    forall r | r in rows ensures IsConfigName(r.cfg) && 1 <= r.start <= r.end + 1 && r.end <= |lines| {
      var k :| 0 <= k < |rows| && rows[k] == r;
      assert RowOk(rows[k], |lines|);
    }
  }

  /** A directive line writes no row for itself: whatever it writes (the rows of a block it
      closes) ends before it, while a plain line's rows are exactly its macro and generic
      rows, all on that line. */
  lemma RowsOfOneLine(st: Scan, file: string, n: int, line: string)
    requires n >= 1 && StackOk(st.stack, n - 1)
    ensures var st' := Step(st, file, n, line);
      st.rows <= st'.rows
      && (ParseDirective(line).Some? ==> forall k :: |st.rows| <= k < |st'.rows| ==> st'.rows[k].end < n)
      && (ParseDirective(line).None? ==>
            st'.stack == st.stack && st'.rows == st.rows + LineRows(line, file, n) && OnLine(LineRows(line, file, n), n))
  {
    ParsedKnown(line);
    match ParseDirective(line)
    case None =>
      LineRowsOnLine(line, file, n);
    case Some(d) =>
      DirectiveRowsBefore(st, file, n, line, d);
  }

  lemma DirectiveRowsBefore(st: Scan, file: string, n: int, line: string, d: Directive)
    requires d.kind in Directives
    requires n >= 1 && StackOk(st.stack, n - 1)
    ensures var st' := StepWith(st, file, n, line, Some(d));
      st.rows <= st'.rows && forall k :: |st.rows| <= k < |st'.rows| ==> st'.rows[k].end < n
  {
    var st' := StepWith(st, file, n, line, Some(d));
    if d.kind in OpenKinds {
      OpenStep(st, file, n, line, d);
    } else if st.stack == [] {
      UnbalancedStep(st, file, n, line, d);
    } else if d.kind != "endif" {
      OtherKinds(d.kind);
      if st.stack[|st.stack| - 1].branches != [] {
        ContinueStep(st, file, n, line, d);
      }
    } else {
      EndifStep(st, file, n, line, d);
      var top := st.stack[|st.stack| - 1];
      var added := BlockRows(CloseLast(top, n).branches, file);
      EndifClosesAll(top, n);
      BlockRowsOk(CloseLast(top, n).branches, file, n - 1);
      forall k | |st.rows| <= k < |st'.rows| ensures st'.rows[k].end < n {
        assert st'.rows[k] == added[k - |st.rows|];
        assert RowOk(added[k - |st.rows|], n - 1);
      }
    }
  }

  // ------------------------------------------------------------- unclosed blocks

  /** The rows the plain (non-directive) lines of a file write, in order. */
  function PlainRows(lines: seq<string>, file: string): seq<Row> {
    if lines == [] then []
    else
      var last := lines[|lines| - 1];
      PlainRows(lines[..|lines| - 1], file)
      + (if ParseDirective(last).None? then LineRows(last, file, |lines|) else [])
  }

  /** No line of the file is an `#endif`. */
  predicate NoEndif(lines: seq<string>) {
    forall k :: 0 <= k < |lines| && ParseDirective(lines[k]).Some? ==> ParseDirective(lines[k]).value.kind != "endif"
  }

  /** Only `#endif` writes branch rows: in a file without one, however many blocks it
      opens, the rows are exactly those of its plain lines. In particular a block still
      open at the end of the file writes nothing. */
  lemma {:induction false} NoEndifOnlyLineRows(lines: seq<string>, file: string)
    requires NoEndif(lines)
    ensures FileRows(lines, file) == PlainRows(lines, file)
  {
    if lines != [] {
      var front := lines[..|lines| - 1];
      var last := lines[|lines| - 1];
      assert NoEndif(front) by {
        forall k | 0 <= k < |front| && ParseDirective(front[k]).Some?
          ensures ParseDirective(front[k]).value.kind != "endif"
        {
          assert front[k] == lines[k];
        }
      }
      NoEndifOnlyLineRows(front, file);
      var st := ScanLines(front, file);
      match ParseDirective(last)
      case None =>
      case Some(d) =>
        assert ParseDirective(lines[|lines| - 1]).value.kind != "endif";
    }
  }

  // ---------------------------------------------------------------- row contents

  /** Filtering keeps ascending order. */
  lemma {:induction false} KeptRowsSorted(names: seq<string>, squeezed: string, snippet: string, file: string, n: int)
    requires StrictlySorted(names)
    ensures CfgSorted(KeptRows(names, squeezed, snippet, file, n))
  {
    if names != [] {
      var front := names[..|names| - 1];
      var x := names[|names| - 1];
      assert StrictlySorted(front) by {
        forall i, j | 0 <= i < j < |front| ensures StrLess(front[i], front[j]) {
          assert front[i] == names[i] && front[j] == names[j];
        }
      }
      KeptRowsSorted(front, squeezed, snippet, file, n);
      var r := KeptRows(front, squeezed, snippet, file, n);
      forall k | 0 <= k < |r| ensures StrLess(r[k].cfg, x) {
        assert r[k].cfg in front;
        var j :| 0 <= j < |front| && front[j] == r[k].cfg;
        assert names[j] == front[j] && j < |names| - 1;
      }
    }
  }

  /** The generic rows of a plain line: one per distinct `CONFIG_` match of the line, in
      ascending name order, except a name whose `defined(X)` call occurs in the line once
      its spaces are removed; every row shows the line's snippet. */
  lemma GenericRowsExact(line: string, file: string, n: int)
    ensures var rows := GenericRows(line, file, n);
      CfgSorted(rows)
      && (forall k :: 0 <= k < |rows| ==> rows[k].expr == Snippet(line) && rows[k].start == n && rows[k].end == n)
      && (forall x :: HasRow(rows, x) <==> MatchedFrom(line, 0, x) && !Contains(RemoveSpaces(line), DefinedCall(x)))
  {
    var rows := GenericRows(line, file, n);
    var found := FindConfigs(line, 0);
    forall x ensures HasRow(rows, x) <==> MatchedFrom(line, 0, x) && !Contains(RemoveSpaces(line), DefinedCall(x)) {
      FindConfigsAll(line, 0, x);
      if MatchedFrom(line, 0, x) {
        var j :| 0 <= j < |line| && ConfigAt(line, j) && ConfigMatch(line, j) == x;
        assert OccursAt(line, ConfigPrefix, j);
        assert Contains(line, ConfigPrefix);
      }
      if HasRow(rows, x) {
        var k :| 0 <= k < |rows| && rows[k].cfg == x;
        assert x in Elems(SortedUnique(found));
      }
      if MatchedFrom(line, 0, x) && !Contains(RemoveSpaces(line), DefinedCall(x)) {
        assert x in Elems(found);
        assert x in SortedUnique(found);
      }
    }
    if rows != [] {
      KeptRowsSorted(SortedUnique(found), RemoveSpaces(line), Snippet(line), file, n);
    }
  }

  /** The substring test in front of the macro pattern never hides a match: the macro rows
      are those of every use the pattern finds. */
  lemma MacroGuardHarmless(line: string, file: string, n: int)
    ensures MacroRows(line, file, n) == MacroUsesRows(FindMacros(line, 0), file, n)
  {
    var uses := FindMacros(line, 0);
    if uses != [] {
      var m :| m in Macros && Contains(line, m);
      var k :| 0 <= k < |Macros| && Macros[k] == m;
      assert MentionsMacro(line);
    }
  }

  /** A text shorter than `CONFIG_` plus one character names no option. */
  lemma {:induction false} ShortTextNamesNothing(s: string, i: int)
    requires 0 <= i <= |s| && |s| <= |ConfigPrefix|
    ensures FindConfigs(s, i) == [] && FindDefined(s, i) == []
    decreases |s| - i
  {
    if i < |s| {
      ShortTextNamesNothing(s, i + 1);
    }
  }

  /** An `#else` branch never writes a row: its expression is just `#else`. */
  lemma ElseBranchSilent(b: Branch, file: string)
    requires b.kind == "else" && b.exprText == ""
    ensures BranchRows(b, file) == []
  {
    var expr := BranchExpr(b);
    assert |"#" + b.kind + " " + b.exprText| == 6;
    assert |expr| <= 6;
    ShortTextNamesNothing(expr, 0);
  }
}
