/** The backslash line-joiner: every chain of lines continued with a trailing `\` becomes one
    physical line, followed by one placeholder line per removed line break, so that the line
    numbers of everything after the chain stay what they were.

    The chain and the output layout are defined for any joining scheme (a continuation test
    and a join step); `Backslash` is the scheme `normalize_file` uses. */
module Normalize {
  import opened Text

  const Placeholder: string := "/* kconfig-db:join-placeholder */"

  /** The text written for a line: its content and exactly one line break. */
  function Terminated(buf: string): string { buf + "\n" }

  /** No trailing `\r` or `\n`. */
  predicate Unbroken(buf: string) {
    buf == [] || !IsLineBreak(buf[|buf| - 1])
  }

  /** A line that ends with one `\n` and no other line break before it. */
  predicate EndsWithSingleNewline(line: string) {
    |line| >= 1 && line[|line| - 1] == '\n' && (|line| == 1 || !IsLineBreak(line[|line| - 2]))
  }

  lemma TerminatedSingle(buf: string)
    requires Unbroken(buf)
    ensures EndsWithSingleNewline(Terminated(buf))
  {
  }

  // ---------------------------------------------------------------------------------------
  // The backslash scheme

  /** A buffer continues onto the next line when its right-stripped text ends with `\`. */
  predicate Continues(buf: string) {
    var t := RStrip(buf);
    |t| > 0 && t[|t| - 1] == '\\'
  }

  /** The buffer with its trailing whitespace, the continuation backslash and the whitespace
      before the backslash removed (only used on a buffer that continues). */
  function StripContinuation(buf: string): (r: string)
    ensures Continues(buf) ==> |r| < |RStrip(buf)| <= |buf|
    ensures r == [] || !IsPySpace(r[|r| - 1])
  {
    var t := RStrip(buf);
    if t == [] then [] else RStrip(t[..|t| - 1])
  }

  /** `StripContinuation` keeps a prefix of the buffer and drops only whitespace, the
      backslash, and whitespace again. */
  lemma StripContinuationDropsTail(buf: string)
    requires Continues(buf)
    ensures var r := StripContinuation(buf); var t := RStrip(buf);
            buf[..|r|] == r && buf[|t| - 1] == '\\'
            && AllSatisfy(buf, |r|, |t| - 1, IsPySpace) && AllSatisfy(buf, |t|, |buf|, IsPySpace)
  {
    var t := RStrip(buf);
    TrimRightRemovesTail(buf, IsPySpace);
    var u := t[..|t| - 1];
    TrimRightRemovesTail(u, IsPySpace);
    assert forall k :: 0 <= k < |u| ==> u[k] == buf[k];
  }

  /** One joining step: the stripped buffer, one space, and the next line without its line
      break and leading whitespace. */
  function JoinNext(buf: string, next: string): (r: string)
    ensures Unbroken(r)
  {
    var tail := LStrip(RStripNewline(next));
    TrimLeftRemovesHead(RStripNewline(next), IsPySpace);
    assert tail != [] ==> tail[|tail| - 1] == RStripNewline(next)[|RStripNewline(next)| - 1];
    StripContinuation(buf) + " " + tail
  }

  /** A join keeps the buffer up to its continuation, puts exactly one space, and appends
      the next line minus its line break and a run of leading whitespace. */
  lemma JoinNextSpec(buf: string, next: string)
    requires Continues(buf)
    ensures var m := |StripContinuation(buf)|; var line := RStripNewline(next);
            var p := |line| - |LStrip(line)|;
            0 <= m < |buf| && 0 <= p <= |line|
            && JoinNext(buf, next) == buf[..m] + " " + line[p..]
            && AllSatisfy(line, 0, p, IsPySpace)
  {
    StripContinuationDropsTail(buf);
    TrimLeftRemovesHead(RStripNewline(next), IsPySpace);
  }

  /** A joining scheme: when a buffer continues, and how the next line is joined onto it. */
  datatype Joiner = Joiner(continues: string -> bool, join: (string, string) -> string)

  /** The scheme of `normalize_file`. */
  const Backslash: Joiner := Joiner(Continues, JoinNext)

  /** Every join result has no trailing line break. */
  ghost predicate JoinsUnbroken(J: Joiner) {
    forall buf, next :: Unbroken(J.join(buf, next))
  }

  lemma BackslashJoinsUnbroken()
    ensures JoinsUnbroken(Backslash)
  {
    forall buf, next ensures Unbroken(Backslash.join(buf, next)) {
      assert Backslash.join(buf, next) == JoinNext(buf, next);
    }
  }

  // ---------------------------------------------------------------------------------------
  // Chains and the output layout

  /** The chain starting with buffer `buf` at line `j`: joins while the buffer continues and a
      further line exists, and gives the index of the chain's last line and the joined text. */
  function Chain(J: Joiner, lines: seq<string>, j: nat, buf: string): (r: (nat, string))
    requires j < |lines|
    ensures j <= r.0 < |lines|
    ensures !J.continues(r.1) || r.0 == |lines| - 1
    decreases |lines| - j
  {
    if J.continues(buf) && j + 1 < |lines| then Chain(J, lines, j + 1, J.join(buf, lines[j + 1]))
    else (j, buf)
  }

  /** A continuing chain is the chain of the joined buffer one line further on. */
  lemma ChainStep(J: Joiner, lines: seq<string>, j: nat, buf: string)
    requires j + 1 < |lines| && J.continues(buf)
    ensures Chain(J, lines, j, buf) == Chain(J, lines, j + 1, J.join(buf, lines[j + 1]))
  {
  }

  /** A chain ends where its buffer stops continuing or the lines run out. */
  lemma ChainEnd(J: Joiner, lines: seq<string>, j: nat, buf: string)
    requires j < |lines|
    requires !(J.continues(buf) && j + 1 < |lines|)
    ensures Chain(J, lines, j, buf) == (j, buf)
  {
  }

  /** The joined text of a chain has no trailing line break when the buffer had none. */
  lemma {:induction false} ChainUnbroken(J: Joiner, lines: seq<string>, j: nat, buf: string)
    requires j < |lines| && Unbroken(buf) && JoinsUnbroken(J)
    ensures Unbroken(Chain(J, lines, j, buf).1)
    decreases |lines| - j
  {
    if J.continues(buf) && j + 1 < |lines| {
      ChainUnbroken(J, lines, j + 1, J.join(buf, lines[j + 1]));
    }
  }

  function Placeholders(n: nat): (r: seq<string>)
    ensures |r| == n && forall k :: 0 <= k < n ==> r[k] == Terminated(Placeholder)
  {
    seq(n, _ => Terminated(Placeholder))
  }

  /** The output for `lines[i..]`, group by group. */
  function NormalizedFrom(J: Joiner, lines: seq<string>, i: nat): (r: seq<string>)
    requires i <= |lines|
    ensures |r| == |lines| - i
    decreases |lines| - i
  {
    if i == |lines| then []
    else
      var c := Chain(J, lines, i, RStripNewline(lines[i]));
      [Terminated(c.1)] + Placeholders(c.0 - i) + NormalizedFrom(J, lines, c.0 + 1)
  }

  function Normalized(lines: seq<string>): seq<string> {
    NormalizedFrom(Backslash, lines, 0)
  }

  lemma NormalizedFromUnfold(J: Joiner, lines: seq<string>, i: nat)
    requires i < |lines|
    ensures var c := Chain(J, lines, i, RStripNewline(lines[i]));
            NormalizedFrom(J, lines, i) == [Terminated(c.1)] + Placeholders(c.0 - i) + NormalizedFrom(J, lines, c.0 + 1)
  {
  }

  /** One group: the chain of lines `i..j` gives its joined line at the group's own first
      index, `j - i` placeholders, and the next group starts at index `j + 1`. */
  lemma NormalizedFromGroup(J: Joiner, lines: seq<string>, i: nat, j: nat, buf: string)
    requires i <= j < |lines|
    requires (j, buf) == Chain(J, lines, i, RStripNewline(lines[i]))
    ensures NormalizedFrom(J, lines, i) == [Terminated(buf)] + Placeholders(j - i) + NormalizedFrom(J, lines, j + 1)
  {
    NormalizedFromUnfold(J, lines, i);
  }

  /** The same group, appended to the output written so far. */
  lemma AppendGroup(J: Joiner, lines: seq<string>, i: nat, j: nat, buf: string, done: seq<string>)
    requires i <= j < |lines|
    requires (j, buf) == Chain(J, lines, i, RStripNewline(lines[i]))
    ensures done + [Terminated(buf)] + Placeholders(j - i) + NormalizedFrom(J, lines, j + 1) == done + NormalizedFrom(J, lines, i)
  {
    NormalizedFromGroup(J, lines, i, j, buf);
  }

  /** Every output line ends with exactly one `\n`. */
  lemma {:induction false} NormalizedLinesEndWithNewline(J: Joiner, lines: seq<string>, i: nat)
    requires i <= |lines| && JoinsUnbroken(J)
    ensures forall k :: 0 <= k < |NormalizedFrom(J, lines, i)| ==> EndsWithSingleNewline(NormalizedFrom(J, lines, i)[k])
    decreases |lines| - i
  {
    if i < |lines| {
      var c := Chain(J, lines, i, RStripNewline(lines[i]));
      NormalizedFromUnfold(J, lines, i);
      ChainUnbroken(J, lines, i, RStripNewline(lines[i]));
      TerminatedSingle(c.1);
      TerminatedSingle(Placeholder);
      NormalizedLinesEndWithNewline(J, lines, c.0 + 1);
    }
  }

  /** A file without continuation lines (except possibly its last line) comes out line for
      line, each line only losing its trailing `\r`/`\n` characters and gaining `\n`. */
  lemma {:induction false} NoContinuationKeepsLines(J: Joiner, lines: seq<string>, i: nat)
    requires i <= |lines|
    requires forall k :: 0 <= k < |lines| - 1 ==> !J.continues(RStripNewline(lines[k]))
    ensures NormalizedFrom(J, lines, i) == seq(|lines| - i, k requires 0 <= k < |lines| - i => Terminated(RStripNewline(lines[i + k])))
    decreases |lines| - i
  {
    if i < |lines| {
      NoContinuationKeepsLines(J, lines, i + 1);
    }
  }

  /** Line `i` starts a group when the groups, walked chain by chain from line `s`, reach
      it. */
  predicate GroupStartFrom(J: Joiner, lines: seq<string>, s: nat, i: nat)
    decreases |lines| - s
  {
    s == i
    || (s < i && s < |lines| && GroupStartFrom(J, lines, Chain(J, lines, s, RStripNewline(lines[s])).0 + 1, i))
  }

  /** Line `i` of the file starts a group of `normalize_file`'s outer loop. */
  predicate GroupStart(J: Joiner, lines: seq<string>, i: nat) {
    GroupStartFrom(J, lines, 0, i)
  }

  /** Indexing into one group's output lines. */
  lemma IndexInGroup(out: seq<string>, buf: string, n: nat, rest: seq<string>, x: nat)
    requires out == [Terminated(buf)] + Placeholders(n) + rest && x <= n
    ensures x < |out|
    ensures x == 0 ==> out[x] == Terminated(buf)
    ensures x != 0 ==> out[x] == Terminated(Placeholder)
  {
  }

  /** Indexing past one group's output lines. */
  lemma IndexAfterGroup(out: seq<string>, buf: string, n: nat, rest: seq<string>, x: nat)
    requires out == [Terminated(buf)] + Placeholders(n) + rest && n < x < n + 1 + |rest|
    ensures out[x] == rest[x - n - 1]
  {
  }

  /** Wherever it lies in the output for `lines[s..]`, a group that starts at line `i` and
      ends at line `j` puts its joined text at index `i` and a placeholder at each index
      `i + 1..j`. */
  lemma {:induction false} GroupAtFrom(J: Joiner, lines: seq<string>, s: nat, i: nat, j: nat, buf: string, k: nat)
    requires s <= i <= k <= j < |lines| && GroupStartFrom(J, lines, s, i)
    requires (j, buf) == Chain(J, lines, i, RStripNewline(lines[i]))
    ensures k - s < |NormalizedFrom(J, lines, s)|
    ensures k == i ==> NormalizedFrom(J, lines, s)[k - s] == Terminated(buf)
    ensures k != i ==> NormalizedFrom(J, lines, s)[k - s] == Terminated(Placeholder)
    decreases |lines| - s
  {
    if s == i {
      GroupAtHere(J, lines, i, j, buf, k);
    } else {
      var c := Chain(J, lines, s, RStripNewline(lines[s]));
      GroupStartStep(J, lines, s, i);
      GroupAtFrom(J, lines, c.0 + 1, i, j, buf, k);
      GroupAtLater(J, lines, s, c.0, c.1, k, NormalizedFrom(J, lines, c.0 + 1)[k - (c.0 + 1)]);
    }
  }

  /** The group at `i` itself: its joined text first, then its placeholders. */
  lemma GroupAtHere(J: Joiner, lines: seq<string>, i: nat, j: nat, buf: string, k: nat)
    requires i <= k <= j < |lines|
    requires (j, buf) == Chain(J, lines, i, RStripNewline(lines[i]))
    ensures k - i < |NormalizedFrom(J, lines, i)|
    ensures k == i ==> NormalizedFrom(J, lines, i)[k - i] == Terminated(buf)
    ensures k != i ==> NormalizedFrom(J, lines, i)[k - i] == Terminated(Placeholder)
  {
    NormalizedFromGroup(J, lines, i, j, buf);
    IndexInGroup(NormalizedFrom(J, lines, i), buf, j - i, NormalizedFrom(J, lines, j + 1), k - i);
  }

  /** An output line after the group at `s`, which ends at line `e`, is the line of the
      output that follows the group. */
  lemma GroupAtLater(J: Joiner, lines: seq<string>, s: nat, e: nat, b: string, k: nat, v: string)
    requires s <= e < k < |lines| && (e, b) == Chain(J, lines, s, RStripNewline(lines[s]))
    requires k - (e + 1) < |NormalizedFrom(J, lines, e + 1)| && NormalizedFrom(J, lines, e + 1)[k - (e + 1)] == v
    ensures k - s < |NormalizedFrom(J, lines, s)| && NormalizedFrom(J, lines, s)[k - s] == v
  {
    NormalizedFromGroup(J, lines, s, e, b);
    IndexAfterGroup(NormalizedFrom(J, lines, s), b, e - s, NormalizedFrom(J, lines, e + 1), k - s);
  }

  /** A group start after `s` is reached from the group that follows the one at `s`. */
  lemma GroupStartStep(J: Joiner, lines: seq<string>, s: nat, i: nat)
    requires s < i && GroupStartFrom(J, lines, s, i)
    ensures s < |lines|
    ensures var c := Chain(J, lines, s, RStripNewline(lines[s])); c.0 + 1 <= i && GroupStartFrom(J, lines, c.0 + 1, i)
  {
  }

  /** The line after a group that starts a group begins the next group. */
  lemma {:induction false} NextGroupFrom(J: Joiner, lines: seq<string>, s: nat, i: nat, j: nat, buf: string)
    requires s <= i < |lines| && GroupStartFrom(J, lines, s, i)
    requires (j, buf) == Chain(J, lines, i, RStripNewline(lines[i]))
    ensures GroupStartFrom(J, lines, s, j + 1)
    decreases |lines| - s
  {
    var c := Chain(J, lines, s, RStripNewline(lines[s]));
    if s == i {
      assert GroupStartFrom(J, lines, c.0 + 1, c.0 + 1);
    } else {
      NextGroupFrom(J, lines, c.0 + 1, i, j, buf);
    }
  }

  /** The same in the output for the whole file: a group starting at line `i` and ending at
      line `j` gives output line `i` its joined text and each output line `i + 1..j` a
      placeholder, so the first line of every group keeps its index; line `j + 1` starts the
      next group. */
  lemma GroupAt(lines: seq<string>, i: nat, j: nat, buf: string, k: nat)
    requires i <= k <= j < |lines| && GroupStart(Backslash, lines, i)
    requires (j, buf) == Chain(Backslash, lines, i, RStripNewline(lines[i]))
    ensures k < |Normalized(lines)|
    ensures Normalized(lines)[k] == if k == i then Terminated(buf) else Terminated(Placeholder)
    ensures GroupStart(Backslash, lines, j + 1)
  {
    GroupAtFrom(Backslash, lines, 0, i, j, buf, k);
    NextGroupFrom(Backslash, lines, 0, i, j, buf);
  }

  /** A group start that does not continue, or the last line, comes out at its own index
      with only its line break replaced by `\n`, and the next line starts a group, wherever
      chains occur elsewhere in the file. */
  lemma UnjoinedLineKept(lines: seq<string>, i: nat)
    requires i < |lines| && GroupStart(Backslash, lines, i)
    requires !Continues(RStripNewline(lines[i])) || i == |lines| - 1
    ensures i < |Normalized(lines)|
    ensures Normalized(lines)[i] == Terminated(RStripNewline(lines[i]))
    ensures GroupStart(Backslash, lines, i + 1)
  {
    ChainEnd(Backslash, lines, i, RStripNewline(lines[i]));
    GroupAt(lines, i, i, RStripNewline(lines[i]), i);
  }

  /** The joiner's output has as many lines as its input, and each ends with exactly one
      `\n`. */
  lemma NormalizedShape(lines: seq<string>)
    ensures |Normalized(lines)| == |lines|
    ensures forall k :: 0 <= k < |Normalized(lines)| ==> EndsWithSingleNewline(Normalized(lines)[k])
  {
    BackslashJoinsUnbroken();
    NormalizedLinesEndWithNewline(Backslash, lines, 0);
  }

  // ---------------------------------------------------------------------------------------
  // normalize_file

  /** The inner loop of `normalize_file`, for a joining scheme `J`: joins the chain that
      starts at line `i` and counts the line breaks it removed. */
  method JoinChain(J: Joiner, lines: seq<string>, i: nat) returns (j: nat, buf: string, cont: nat)
    requires i < |lines|
    ensures (j, buf) == Chain(J, lines, i, RStripNewline(lines[i]))
    ensures cont == j - i
  {
    var n := |lines|;
    j := i;
    buf := RStripNewline(lines[i]);
    cont := 0;
    ghost var chain := Chain(J, lines, i, buf);
    while J.continues(buf) && j + 1 < n
      invariant i <= j < n
      invariant cont == j - i
      invariant Chain(J, lines, j, buf) == chain
      decreases n - j
    {
      ChainStep(J, lines, j, buf);
      cont := cont + 1;
      j := j + 1;
      buf := J.join(buf, lines[j]);
    }
    ChainEnd(J, lines, j, buf);
  }

  /** The `for _ in range(cont)` loop of `normalize_file`: one placeholder line per removed
      line break. */
  method AppendPlaceholders(outLines: seq<string>, cont: nat) returns (r: seq<string>)
    ensures r == outLines + Placeholders(cont)
  {
    r := outLines;
    var k := 0;
    while k < cont
      invariant 0 <= k <= cont
      invariant r == outLines + Placeholders(k)
    {
      r := r + [Terminated(Placeholder)];
      k := k + 1;
    }
  }

  /** The line-joining loop of `normalize_file` for a joining scheme `J`, over the lines
      `readlines()` returned. */
  method NormalizeLines(J: Joiner, lines: seq<string>) returns (outLines: seq<string>)
    ensures outLines == NormalizedFrom(J, lines, 0)
  {
    outLines := [];
    var i := 0;
    var n := |lines|;
    while i < n
      invariant 0 <= i <= n
      invariant outLines + NormalizedFrom(J, lines, i) == NormalizedFrom(J, lines, 0)
      invariant |outLines| == i
      decreases n - i
    {
      var j, buf, cont := JoinChain(J, lines, i);
      AppendGroup(J, lines, i, j, buf, outLines);
      outLines := outLines + [Terminated(buf)];
      outLines := AppendPlaceholders(outLines, cont);
      i := j + 1;
    }
  }

  /** `normalize_file` on the lines of one file: the backslash scheme's output, one line per
      input line, each ending in a single `\n`. */
  method NormalizeFile(lines: seq<string>) returns (outLines: seq<string>)
    ensures outLines == Normalized(lines)
    ensures |outLines| == |lines|
  {
    outLines := NormalizeLines(Backslash, lines);
    NormalizedShape(lines);
  }
}
