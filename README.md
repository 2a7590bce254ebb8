# Kernel configuration debloating tools, modelled in Dafny

This project models four small tools that work on Linux kernel configurations. Each tool is modelled
in the form its Python source takes. Loops that update state become methods with loop invariants.
Objects whose fields change become classes. Pure helpers become functions. Each operation is proved
against a specification function, and lemmas state what those functions mean.

- **DICE debloater** (`artifacts/dice/dice.py`). It builds a dependency graph from a Kconfig tree and
  derives candidate groups of symbols to remove: leaves, cycles and menus. A guided search then tries
  to disable each group and checks the result with a staged validator (Kconfig constraints, build,
  boot, runtime). When a large group fails, it tries the first half of the group once.
  - Modules `Dicts` and `DiceKconfig`: the insertion-ordered dictionary and the value view of the
    Kconfig tree.
  - `DiceGraph` and `DiceGraphProps`: the graph builders, the reverse-dependency and select maps, and
    their soundness and completeness.
  - `DiceImpact`: `compute_removal_impact` and its worklist closure.
  - `DiceValidate`: the validation stages.
  - `DiceCandidates`: the candidate groups.
  - `DiceSearch` and `DiceSearchProps`: the search, bisection, saving of results, and their properties.
- **Kconfig usage database** (`artifacts/tracie/kconfig_db.py`). It scans C sources line by line. It
  keeps a stack of open `#if` blocks and records which `CONFIG_` symbols guard which line ranges. It
  also records macro uses (`IS_ENABLED` and similar) and plain mentions.
  - `Paths`: which files are scanned.
  - `ConfigScan`: the regular expressions, as scanners.
  - `KconfigDb`: the line-driven state machine.
  - `KconfigProps`: the stack discipline and the line arithmetic of the rows.
- **Configuration expression solver** (`artifacts/tracie/config_solver.py`). It tokenizes boolean
  expressions over `CONFIG_` variables and parses them by precedence. It Tseitin-encodes them into
  clauses, then builds a weighted MaxSAT problem: the expressions are hard clauses, and every variable
  prefers false.
  - `ExprLexer`: the tokenizer.
  - `ExprParser` and `ExprGrammar`: the parser class with its pure specification, and the precedence
    round trip.
  - `Tseitin`: the encoder class with its gate correctness.
  - `SolverInput`: the input filter and the problem handed to the solver.
- **Backslash normaliser** (`artifacts/linux/normalize_backslashes.py`). It joins backslash
  continuation chains into one line and appends placeholder lines, so the line count and the later
  line numbers stay the same.
  - `Normalize`: the joining loop, written once for any joiner and used with the backslash joiner.
  - `Text`: Python string helpers shared by all tools (`strip` with Python's whitespace set, prefix
    tests, sorting), plus the `Wrappers` datatypes.

Behaviour of the code as written, which this model keeps:
- **The skip check never fires as intended.** Candidate groups hold bare symbol names. The
  configuration's keys carry the `CONFIG_` prefix. So `guided_search` (dice.py:413) finds every
  symbol of every group "already removed" and skips it. Lemma `DiceSearchProps.GuidedSearchNeverTries`
  states this: from a validated baseline, the search tests nothing and returns the baseline. The
  comment above the test (dice.py:412) says the intent: skip a group only when its symbols are
  already removed. The model follows the test as written.
- **The constraint check rejects every bool or tristate assignment.** kconfiglib keeps such a
  symbol's user value as an int, and the test at dice.py:222 compares it with the string
  `str_value`, which never equals an int. Any configuration that assigns a known bool or
  tristate symbol is therefore an invalid configuration, the baseline included
  (`DiceSearchProps.TriStateAssignmentRejected`).
- **Bisection is not an improvement.** A successful bisection replaces the best candidate but does not
  set `improved`. If it was the only change in an iteration, the search stops
  (`DiceSearchProps.BisectionIsNotImprovement`).
- **The select map is never built for the search.** Nothing calls `_build_selected_by_map`
  (dice.py:107-115): neither `DependencyAnalyzer.__init__` (dice.py:37-41) nor
  `DICEDebloater.__init__` (dice.py:305-331) does. No `selected_by` attribute is ever set; the
  only uses are the reads at dice.py:421-422. The veto would therefore raise `AttributeError`
  if it were reached. It is not reached for the groups `identify_removal_candidates` produces,
  because the test at dice.py:413 skips them all first. The model takes the map the veto reads
  as an input of the search. The map the builder would compute is `DiceGraph.BuildSelectedByMap`,
  and its meaning is proved separately.
- **Disabled symbols stay as `n` entries.** The final configuration is never smaller than the
  baseline (`DiceSearchProps.ReportNeverShrinks`).
- **Bad `#elif`, `#else` and `#endif` lines are ignored.** With no open block, they change nothing.
  An `#else` branch never writes rows.

The dependency graph is an edge map from `(source, target)` to the kind the edge kept. A later edge
between the same pair overwrites the kind, as `networkx.DiGraph.add_edge` does.

## Model

| member | source | states |
|---|---|---|
| Text.TrimRightRemovesTail | artifacts/linux/normalize_backslashes.py:44-50 | `rstrip` keeps a prefix of the string and removes exactly a trailing run of the stripped characters; the result never ends in one |
| Text.TrimLeftRemovesHead | artifacts/linux/normalize_backslashes.py:54 | `lstrip` keeps a suffix and removes exactly a leading run of the stripped characters |
| Text.RemoveSpaces | artifacts/tracie/kconfig_db.py:184 | `line.replace(" ", "")` leaves no space character and keeps every other character as often as it occurs |
| Text.RemoveSpacesConcat | artifacts/tracie/kconfig_db.py:184 | removing spaces works piece by piece, so the kept characters stay in their order |
| Text.RemoveSpacesNone | artifacts/tracie/kconfig_db.py:184 | a line without spaces is left as it is |
| Text.StrLessIrreflexive | artifacts/tracie/kconfig_db.py:81 | Python's string `<` is irreflexive |
| Text.StrLessTransitive | artifacts/tracie/kconfig_db.py:81 | Python's string `<` is transitive |
| Text.StrLessTotal | artifacts/tracie/kconfig_db.py:81 | any two distinct strings are ordered one way or the other |
| Text.InsertSorted | artifacts/tracie/kconfig_db.py:81 | inserting into a strictly ascending list keeps it strictly ascending |
| Text.SortedUnique | artifacts/tracie/kconfig_db.py:81 | `sorted(set)` is strictly ascending and holds exactly the input's elements |
| Text.NatToString | artifacts/dice/dice.py:356 | `str(i)` is a non-empty string of decimal digits that spells `i`, with no leading zero except in `"0"` |
| Paths.LastIndex | artifacts/tracie/kconfig_db.py:52 | `rfind`: the index holds the character and no later index does, or -1 |
| Paths.Ext | artifacts/tracie/kconfig_db.py:52 | `os.path.splitext`'s extension is empty or a dot-led suffix of the path with no further dot or slash |
| Paths.ScannedFileHasSourceExtension | artifacts/tracie/kconfig_db.py:51-53 | a scanned path ends in a listed extension preceded by a character of the same component |
| Paths.SourceExtensionIsScanned | artifacts/linux/normalize_backslashes.py:28-30 | conversely, a stem not ending in `/` or `.` followed by a listed extension is scanned |
| Paths.HiddenFileNotScanned | artifacts/tracie/kconfig_db.py:51-53 | a dot-file such as `dir/.c` has no extension and is not scanned |
| Normalize.TerminatedSingle | artifacts/linux/normalize_backslashes.py:56 | a buffer without trailing line break, written with `+ "\n"`, ends in exactly one newline |
| Normalize.StripContinuation | artifacts/linux/normalize_backslashes.py:49-50 | removing the backslash strictly shortens a continuing buffer and leaves no trailing whitespace |
| Normalize.StripContinuationDropsTail | artifacts/linux/normalize_backslashes.py:49-50 | what is removed is trailing whitespace, the backslash, and the whitespace before it; the rest is a prefix of the buffer |
| Normalize.JoinNext | artifacts/linux/normalize_backslashes.py:49-54 | a joined buffer never ends in `\r` or `\n` |
| Normalize.JoinNextSpec | artifacts/linux/normalize_backslashes.py:46-54 | a join is the buffer up to its continuation, one space, then the next line minus line break and leading whitespace |
| Normalize.Chain | artifacts/linux/normalize_backslashes.py:46-54 | a chain ends on a line of the file, and there only if its buffer no longer continues or the file has run out |
| Normalize.ChainUnbroken | artifacts/linux/normalize_backslashes.py:44-54 | the joined text of a chain never ends in a line break |
| Normalize.NormalizedFrom | artifacts/linux/normalize_backslashes.py:39-61 | the output for the lines from `i` on has exactly as many lines as they do |
| Normalize.NormalizedLinesEndWithNewline | artifacts/linux/normalize_backslashes.py:56-59 | every output line, joined or placeholder, ends in exactly one `\n` |
| Normalize.GroupAtFrom | artifacts/linux/normalize_backslashes.py:39-61 | in the output for the lines from any group start, a group's joined text sits at its first line's index and placeholders fill the indices of its other lines |
| Normalize.GroupAtHere | artifacts/linux/normalize_backslashes.py:39-61 | the output for the lines from a group start begins with the group's joined text followed by one placeholder per joined line |
| Normalize.NextGroupFrom | artifacts/linux/normalize_backslashes.py:61 | the line after a group's last line starts the next group |
| Normalize.GroupAt | artifacts/linux/normalize_backslashes.py:39-61 | in the whole file's output, the first line of every group keeps its index and carries the joined text, the group's other lines become placeholders, and the next line starts a group |
| Normalize.UnjoinedLineKept | artifacts/linux/normalize_backslashes.py:44-56 | a group start that does not continue, or the last line, comes out at its own index with only its line break replaced by `\n`, whatever chains occur elsewhere |
| Normalize.NoContinuationKeepsLines | artifacts/linux/normalize_backslashes.py:39-61 | without continuations, every line comes out as itself with its line break normalised to `\n` |
| Normalize.NormalizedShape | artifacts/linux/normalize_backslashes.py:32-61 | the output has the input's line count (so line numbers after a chain are preserved) and each line ends in one `\n` |
| Normalize.JoinChain | artifacts/linux/normalize_backslashes.py:41-54 | the inner loop computes the chain's last line and joined text, and `cont` is the number of line breaks removed |
| Normalize.AppendPlaceholders | artifacts/linux/normalize_backslashes.py:58-59 | the `range(cont)` loop appends exactly `cont` placeholder lines |
| Normalize.NormalizeLines | artifacts/linux/normalize_backslashes.py:36-61 | the outer loop's output is the group-by-group output specification |
| Normalize.NormalizeFile | artifacts/linux/normalize_backslashes.py:32-65 | `normalize_file` writes the normalised lines, as many as it read |
| ExprLexer.IdentEnd | artifacts/tracie/config_solver.py:45-48 | the regex's identifier run: all identifier characters, stopping at the first other one |
| ExprLexer.Step | artifacts/tracie/config_solver.py:29-49 | each round of the loop moves strictly forward |
| ExprLexer.Tokenize | artifacts/tracie/config_solver.py:24-51 | the loop returns the tokens, or the error position, of the tokenizer specification |
| ExprLexer.LexTokensWellFormed | artifacts/tracie/config_solver.py:24-51 | every token is an operator or a full `CONFIG_[A-Za-z0-9_]+` identifier |
| ExprLexer.LexConcat | artifacts/tracie/config_solver.py:24-51 | the tokens, joined, give back the input with its blanks removed |
| ExprLexer.LexErrorAtBadChar | artifacts/tracie/config_solver.py:50 | the error position holds a non-blank character that starts no token |
| ExprLexer.ForeignCharRejected | artifacts/tracie/config_solver.py:50 | any character that is neither blank nor a token character makes tokenizing fail |
| ExprParser.ExprAt | artifacts/tracie/config_solver.py:110-115 | a successful `expr()` consumes at least one token and stays within the tokens |
| ExprParser.ExprTail | artifacts/tracie/config_solver.py:112-114 | the `'||' term` loop never moves the cursor back or past the end |
| ExprParser.TermAt | artifacts/tracie/config_solver.py:117-122 | a successful `term()` consumes at least one token |
| ExprParser.TermTail | artifacts/tracie/config_solver.py:119-121 | the `'&&' factor` loop never moves the cursor back or past the end |
| ExprParser.FactorAt | artifacts/tracie/config_solver.py:124-136 | a successful `factor()` consumes at least one token |
| ExprParser.ParseFrom | artifacts/tracie/config_solver.py:104-108 | `parse()` succeeds only with an expression that uses up every token |
| ExprParser.Parser.constructor | artifacts/tracie/config_solver.py:88-90 | the parser starts at token 0 over the given tokens |
| ExprParser.Parser.Peek | artifacts/tracie/config_solver.py:92-93 | `peek` gives the current token exactly when one is left, and `None` otherwise |
| ExprParser.Parser.Eat | artifacts/tracie/config_solver.py:95-102 | `eat` fails at the end or on a token other than the one expected (without moving); otherwise it returns the token and advances by one |
| ExprParser.Parser.Parse | artifacts/tracie/config_solver.py:104-108 | the method returns the tree or error of the `parse()` specification, extra tokens included |
| ExprParser.Parser.Expr | artifacts/tracie/config_solver.py:110-115 | the method's tree or error and final cursor are those of the `expr()` specification |
| ExprParser.Parser.Term | artifacts/tracie/config_solver.py:117-122 | likewise for `term()` |
| ExprParser.Parser.Factor | artifacts/tracie/config_solver.py:124-136 | likewise for `factor()`, including `BadFactor` and a missing `)` |
| ExprGrammar.FactorRoundTrip | artifacts/tracie/config_solver.py:124-136 | a printed factor (variable, negation, parenthesised expression) parses back as itself |
| ExprGrammar.ParenFactor | artifacts/tracie/config_solver.py:129-133 | `(` expression `)` is a factor ending after the `)` |
| ExprGrammar.TermPrefix | artifacts/tracie/config_solver.py:117-122 | a printed term, followed by anything, is consumed with that term as the tree so far (`&&` groups to the left) |
| ExprGrammar.ExprPrefix | artifacts/tracie/config_solver.py:110-115 | a printed expression not followed by `&&` is consumed with that expression as the tree so far (`||` groups to the left) |
| ExprGrammar.ParsePrinted | artifacts/tracie/config_solver.py:54-57 | parsing the printed form of any tree gives the tree back: `&&` binds tighter than `||`, both are left-associative |
| Tseitin.LitSpec | artifacts/tracie/config_solver.py:149-155 | `lit` returns the name's id; a new name gets the next id and the counter moves by one, a known name changes nothing; no clause is added |
| Tseitin.FreshSpec | artifacts/tracie/config_solver.py:157-160 | `fresh` returns the counter, which is above every named id and no name's id, and moves the counter by one |
| Tseitin.Enc | artifacts/tracie/config_solver.py:162-185 | `encode` only appends clauses (two per `!`, three per `&&`/`\|\|`) and never moves the counter back |
| Tseitin.Encoder.constructor | artifacts/tracie/config_solver.py:143-147 | a new encoder has no names, no clauses and counter 1 |
| Tseitin.Encoder.Lit | artifacts/tracie/config_solver.py:149-155 | the method's id and new state are those of `lit`'s specification |
| Tseitin.Encoder.Fresh | artifacts/tracie/config_solver.py:157-160 | likewise for `fresh` |
| Tseitin.Encoder.Encode | artifacts/tracie/config_solver.py:162-185 | likewise for `encode`, gate clauses in the order the source appends them |
| Tseitin.InitWF | artifacts/tracie/config_solver.py:143-147 | the initial state is well formed |
| Tseitin.ExtendsTrans | artifacts/tracie/config_solver.py:149-185 | "later state" is transitive: ids and clauses once handed out stay |
| Tseitin.LitWF | artifacts/tracie/config_solver.py:149-155 | `lit` keeps `var_ids` and `rev` mutually inverse, and distinct names get distinct ids |
| Tseitin.IdsInjective | artifacts/tracie/config_solver.py:149-155 | in a well-formed state no two names share an id |
| Tseitin.GateWF | artifacts/tracie/config_solver.py:167-183 | taking a fresh gate id and appending its clauses keeps the state well formed |
| Tseitin.EncWF | artifacts/tracie/config_solver.py:162-185 | encoding keeps the state well formed, returns a positive id below the counter, and gives every variable of the node an id |
| Tseitin.NotGateIff | artifacts/tracie/config_solver.py:168-169 | the two `!` clauses hold exactly when `y == !a` |
| Tseitin.AndGateIff | artifacts/tracie/config_solver.py:175-176 | the three `&&` clauses hold exactly when `y == a && b` |
| Tseitin.OrGateIff | artifacts/tracie/config_solver.py:182-183 | the three `\|\|` clauses hold exactly when `y == a \|\| b` |
| Tseitin.EncSound | artifacts/tracie/config_solver.py:162-185 | any assignment satisfying all clauses gives the returned literal the node's truth value (soundness) |
| Tseitin.GatesFresh | artifacts/tracie/config_solver.py:157-160 | every gate id is handed out during the encoding and is never a named id |
| Tseitin.EncComplete | artifacts/tracie/config_solver.py:162-185 | setting the variables freely and each gate to its node's value satisfies every added clause (completeness) |
| SolverInput.FilterExprs | artifacts/tracie/config_solver.py:214-219 | the filter loop keeps the stripped lines that are neither blank nor `#` comments, in order |
| SolverInput.ExprsMembers | artifacts/tracie/config_solver.py:214-219 | an expression is exactly a stripped input line that is neither blank nor a comment (both directions) |
| SolverInput.Run | artifacts/tracie/config_solver.py:225-231 | encoding all expressions gives one top literal per expression and a well-formed later encoder state |
| SolverInput.Names | artifacts/tracie/config_solver.py:241 | the soft-clause order is strictly ascending by name and covers exactly the named variables |
| SolverInput.EncodeAll | artifacts/tracie/config_solver.py:225-231 | the loop tokenizes, parses and encodes each expression into one encoder, stopping at the first error, as the specification says |
| SolverInput.HardClauses | artifacts/tracie/config_solver.py:234-238 | the hard clauses are the encoder's clauses followed by one unit clause `[top]` per expression |
| SolverInput.SoftClauses | artifacts/tracie/config_solver.py:240-242 | one soft clause `[-id]` of weight 1 per name, in the given order |
| SolverInput.BuildProblem | artifacts/tracie/config_solver.py:214-242 | the whole pipeline yields the problem of the specification, or "no expressions", or the first tokenizer or parser error |
| SolverInput.RunTopsPositive | artifacts/tracie/config_solver.py:225-231 | every top literal is a positive id, so `[top]` asserts the expression |
| SolverInput.RunSound | artifacts/tracie/config_solver.py:225-238 | any model of the encoder's clauses gives every top literal its expression's value |
| SolverInput.RunComplete | artifacts/tracie/config_solver.py:225-238 | a consistent assignment satisfies every added clause and, when all expressions hold, every top literal |
| SolverInput.UnitsSat | artifacts/tracie/config_solver.py:237-238 | the unit clauses hold exactly when all top literals are true |
| SolverInput.ProblemSound | artifacts/tracie/config_solver.py:233-238 | every model of the hard clauses makes every input expression true |
| SolverInput.ProblemComplete | artifacts/tracie/config_solver.py:233-238 | whenever the expressions are jointly satisfiable, the hard clauses have a model agreeing with that assignment on every named variable |
| ConfigScan.SeparatorNotWord | artifacts/tracie/kconfig_db.py:35 | parentheses and whitespace are never word characters, so they always make a `\b` |
| ConfigScan.NameEnd | artifacts/tracie/kconfig_db.py:33 | the greedy `[A-Z0-9_]*` run: only name characters, stopping at the first other one |
| ConfigScan.SkipSpaces | artifacts/tracie/kconfig_db.py:34-35 | the greedy `\s*` run: only whitespace, stopping at the first other character |
| ConfigScan.FirstFrom | artifacts/tracie/kconfig_db.py:37 | the first `)` after the opening parenthesis, i.e. where the lazy `[^)]*?` stops |
| ConfigScan.ConfigMatch | artifacts/tracie/kconfig_db.py:33 | every `RE_CONFIG` match is `CONFIG_` followed by one or more of `[A-Z0-9_]` |
| ConfigScan.FindConfigs | artifacts/tracie/kconfig_db.py:33 | every name `findall` returns is a configuration name |
| ConfigScan.NoMatchInside | artifacts/tracie/kconfig_db.py:33 | no `RE_CONFIG` match can start inside another match |
| ConfigScan.FindConfigsAll | artifacts/tracie/kconfig_db.py:33 | scanning left to right and resuming after each match lists exactly the texts of all match positions (both directions) |
| ConfigScan.NameInParens | artifacts/tracie/kconfig_db.py:35 | the name inside `( ... )` is itself a whole `RE_CONFIG` match |
| ConfigScan.DefinedAt | artifacts/tracie/kconfig_db.py:35 | a `defined ( NAME )` match captures a whole `RE_CONFIG` match after `defined` |
| ConfigScan.FindDefined | artifacts/tracie/kconfig_db.py:74-75 | every name captured by `RE_DEFINED.finditer` is also found by `RE_CONFIG` |
| ConfigScan.ExtractConfigs | artifacts/tracie/kconfig_db.py:69-76 | every extracted name is a configuration name |
| ConfigScan.ExtractIsConfigMatches | artifacts/tracie/kconfig_db.py:69-76 | the extracted set is exactly the set of `RE_CONFIG` matches: the `defined(...)` pass adds nothing |
| ConfigScan.MacroCall | artifacts/tracie/kconfig_db.py:37 | a macro call's arguments are the text up to the first `)`, which contains no `)` |
| ConfigScan.MacroAt | artifacts/tracie/kconfig_db.py:37 | a match names one of the four macros, standing at the match position, and ends on a `)` |
| ConfigScan.FindMacros | artifacts/tracie/kconfig_db.py:164-165 | a line with a macro use contains one of the macro names, so the `any(...)` guard never hides a match |
| ConfigScan.KeywordAt | artifacts/tracie/kconfig_db.py:34 | the alternation picks a listed keyword standing as a whole word |
| ConfigScan.ParseDirective | artifacts/tracie/kconfig_db.py:95-96 | a directive line yields one of the six keywords and an already-stripped tail |
| ConfigScan.StripIdempotent | artifacts/tracie/kconfig_db.py:96 | stripping twice strips nothing more |
| ConfigScan.Snippet | artifacts/tracie/kconfig_db.py:179-181 | the snippet is the stripped line when it has at most 200 characters, otherwise its first 197 characters and `...`; never longer than 200 |
| KconfigDb.RowsFor | artifacts/tracie/kconfig_db.py:81-82 | one row per name, in the names' order, each carrying the shared expression, file and lines |
| KconfigDb.FlushRows | artifacts/tracie/kconfig_db.py:78-82 | `flush_branch_rows` writes each distinct name exactly once (a name has a row iff it is among the names), in ascending order, and an unset end falls back to the start |
| KconfigDb.KeptRows | artifacts/tracie/kconfig_db.py:182-186 | a generic row is written for a name exactly when `defined(NAME)` does not occur in the space-free line, and carries the snippet and the single line |
| KconfigDb.FlushBranchRows | artifacts/tracie/kconfig_db.py:78-82 | the row-writing loop of `flush_branch_rows` writes the rows of its specification |
| KconfigDb.EmitBlock | artifacts/tracie/kconfig_db.py:150-156 | at `#endif` the block's branches write their rows branch after branch |
| KconfigDb.EmitBranch | artifacts/tracie/kconfig_db.py:152-156 | one branch writes the flushed rows of the names in `#kind expr`, and nothing when there are none |
| KconfigDb.EmitUseRows | artifacts/tracie/kconfig_db.py:166-172 | one macro use writes one row per distinct name of its arguments, in ascending order, with `MACRO(args)` and the single line |
| KconfigDb.EmitUsesRows | artifacts/tracie/kconfig_db.py:165-172 | the macro uses of a line write their rows use after use |
| KconfigDb.EmitMacroRows | artifacts/tracie/kconfig_db.py:163-172 | a line without any macro name writes no macro rows |
| KconfigDb.EmitGenericRows | artifacts/tracie/kconfig_db.py:174-186 | the generic loop writes the kept rows of the line's distinct `CONFIG_` matches in ascending order |
| KconfigDb.ApplyDirective | artifacts/tracie/kconfig_db.py:98-161 | a directive line opens a block; `#elif`/`#else` close the last branch and add one (ignored when unbalanced); `#endif` closes it, writes the block's rows and pops it (ignored on an empty stack) |
| KconfigDb.ProcessLine | artifacts/tracie/kconfig_db.py:92-186 | one line updates the stack and rows as the one-line specification says: directive handling, or macro rows then generic rows |
| KconfigDb.ProcessFile | artifacts/tracie/kconfig_db.py:84-186 | `process_file` writes the rows of the line-by-line specification, in order |
| KconfigProps.ParsedKnown | artifacts/tracie/kconfig_db.py:34 | the directive pattern only ever reports one of its six keywords |
| KconfigProps.OtherKinds | artifacts/tracie/kconfig_db.py:98-141 | a keyword that neither opens nor ends a block is `elif` or `else`, so the `if` chain covers every directive |
| KconfigProps.OpenStep | artifacts/tracie/kconfig_db.py:98-108 | `#if`/`#ifdef`/`#ifndef` push one block with one open branch whose body starts on the next line, writing nothing |
| KconfigProps.UnbalancedStep | artifacts/tracie/kconfig_db.py:111-143 | `#elif`, `#else` and `#endif` with no open block change nothing |
| KconfigProps.EndifStep | artifacts/tracie/kconfig_db.py:141-158 | `#endif` pops exactly the top block and writes its rows with the last branch closed |
| KconfigProps.ContinueStep | artifacts/tracie/kconfig_db.py:110-139 | `#elif`/`#else` keep the blocks below, close the top block's last branch and append a new open branch; `#else` has an empty expression; nothing is written |
| KconfigProps.CloseLastEffect | artifacts/tracie/kconfig_db.py:115-149 | closing sets the last branch's end to the line before the directive only if it was unset, touching nothing else |
| KconfigProps.EndifClosesAll | artifacts/tracie/kconfig_db.py:144-149 | once `#endif` closes the last branch, every branch of a well-shaped block has a line range inside the file read so far |
| KconfigProps.BranchRowsOk | artifacts/tracie/kconfig_db.py:151-156 | a closed branch writes only configuration names over its body's line range |
| KconfigProps.BlockRowsOk | artifacts/tracie/kconfig_db.py:151-156 | likewise for a whole block |
| KconfigProps.LineRowsOnLine | artifacts/tracie/kconfig_db.py:163-186 | every macro or generic row of a plain line names an option on exactly that line |
| KconfigProps.ContinueOk | artifacts/tracie/kconfig_db.py:110-139 | `#elif`/`#else` keep a block well shaped: an opening branch, continuation branches each ending right before the next directive, the last one open |
| KconfigProps.StepOk | artifacts/tracie/kconfig_db.py:92-186 | each line keeps every open block well shaped and every row within the lines read so far |
| KconfigProps.EndifStepOk | artifacts/tracie/kconfig_db.py:141-158 | `#endif` keeps the remaining blocks well shaped and writes only in-range rows |
| KconfigProps.ContinueStepOk | artifacts/tracie/kconfig_db.py:110-139 | `#elif`/`#else` keep the stack well shaped and write nothing |
| KconfigProps.ScanLinesOk | artifacts/tracie/kconfig_db.py:84-186 | after any number of lines every open block is well shaped and every row lies within the file |
| KconfigProps.FileRowsInRange | artifacts/tracie/kconfig_db.py:84-186 | every row `process_file` writes names an option over a line range `start..end` with `1 <= start <= end + 1 <= lines + 1` |
| KconfigProps.RowsOfOneLine | artifacts/tracie/kconfig_db.py:92-186 | rows are only appended; a directive line writes only rows ending before it; a plain line keeps the stack and writes rows for that line only |
| KconfigProps.DirectiveRowsBefore | artifacts/tracie/kconfig_db.py:98-161 | the rows a directive line writes all end before that line |
| KconfigProps.NoEndifOnlyLineRows | artifacts/tracie/kconfig_db.py:141-158 | only `#endif` writes branch rows: without one, the rows are exactly those of the plain lines, so blocks still open at the end of the file write nothing |
| KconfigProps.KeptRowsSorted | artifacts/tracie/kconfig_db.py:182-186 | generic rows come out in strictly ascending name order |
| KconfigProps.GenericRowsExact | artifacts/tracie/kconfig_db.py:174-186 | the generic rows of a line are sorted, show its snippet on its line, and name exactly the `RE_CONFIG` matches whose `defined(NAME)` is not in the space-free line |
| KconfigProps.MacroGuardHarmless | artifacts/tracie/kconfig_db.py:164-165 | the cheap `any(macro in line)` test never changes the macro rows |
| KconfigProps.ShortTextNamesNothing | artifacts/tracie/kconfig_db.py:69-76 | a text no longer than `CONFIG_` names no option |
| KconfigProps.ElseBranchSilent | artifacts/tracie/kconfig_db.py:133-156 | an `#else` branch never writes a row |
| Dicts.Set | artifacts/dice/dice.py:440 | `d[k] = v` keeps the dict well formed, maps `k` to `v`, leaves every other entry alone, and appends `k` to the key order only when it is new |
| Dicts.SetSize | artifacts/dice/dice.py:440 | assigning grows `len(d)` by one exactly when the key is new |
| DiceKconfig.CurrentConfig | artifacts/dice/dice.py:333-339 | the current configuration is a well-formed dict |
| DiceKconfig.CurrentConfigEntries | artifacts/dice/dice.py:333-339 | a key is present iff it is `CONFIG_` plus the name of a symbol whose value is not `n`, and no entry is `n` |
| DiceGraph.AddNode | artifacts/dice/dice.py:49-54 | adding a node keeps every edge's ends among the nodes |
| DiceGraph.AddEdge | artifacts/dice/dice.py:68 | adding an edge makes both ends nodes |
| DiceGraph.ItemEdges | artifacts/dice/dice.py:66-76 | the loop over `expr_items` only adds nodes and edges, keeping edge ends among the nodes |
| DiceGraph.SelectEdges | artifacts/dice/dice.py:71-76 | the select loop only adds, keeping edge ends among the nodes |
| DiceGraph.ImplyEdges | artifacts/dice/dice.py:79-80 | the imply loop only adds, keeping edge ends among the nodes |
| DiceGraph.SymbolEdges | artifacts/dice/dice.py:62-85 | one symbol's edges only add to the graph, keeping edge ends among the nodes |
| DiceGraph.SymbolNodes | artifacts/dice/dice.py:48-49 | adding the symbol nodes keeps the graph well formed |
| DiceGraph.ChoiceNodes | artifacts/dice/dice.py:52-54 | adding the choice nodes keeps the graph well formed |
| DiceGraph.AllSymbolEdges | artifacts/dice/dice.py:57-58 | every symbol's edges only add, keeping edge ends among the nodes |
| DiceGraph.GraphOf | artifacts/dice/dice.py:43-60 | the dependency graph has both ends of every edge among its nodes |
| DiceGraph.AddItemEdges | artifacts/dice/dice.py:66-68 | the loop over a dependency expression's items builds the specified edges, skipping constants and choices |
| DiceGraph.AddSymbolDependencies | artifacts/dice/dice.py:62-85 | `_add_symbol_dependencies` adds depends-on, select, select-condition, imply and choice-member edges in the source's order |
| DiceGraph.BuildDependencyGraph | artifacts/dice/dice.py:43-60 | `_build_dependency_graph` builds the specified graph: symbol nodes, choice nodes, then each symbol's edges |
| DiceGraph.DependentsDependencies | artifacts/dice/dice.py:117-127 | `b` is a dependent of `a` exactly when `a` is a dependency of `b` |
| DiceGraph.DependentsAreNodes | artifacts/dice/dice.py:117-121 | dependents are nodes of the graph |
| DiceGraph.EmptyReverse | artifacts/dice/dice.py:89-91 | the first loop maps every node, and nothing else, to an empty set |
| DiceGraph.AddReverseEdges | artifacts/dice/dice.py:93-94 | the edge loop adds each edge's source to its target's set, and nothing else |
| DiceGraph.BuildReverseDependencies | artifacts/dice/dice.py:87-96 | `_build_reverse_dependencies` maps each node to the sources of the edges into it |
| DiceGraph.ReverseDepsAreDependencies | artifacts/dice/dice.py:87-127 | the reverse map gives every node exactly its dependencies |
| DiceGraph.ExtractChoiceGroups | artifacts/dice/dice.py:98-105 | the loop maps each choice id to its members, a later choice with the same id winning |
| DiceGraph.ChoiceGroupsFrom | artifacts/dice/dice.py:98-105 | an id is a choice group iff some choice has it, and its members are that choice's members |
| DiceGraph.BuildSelectedByMap | artifacts/dice/dice.py:107-115 | `_build_selected_by_map` computes the specified map from targets to their selectors |
| DiceGraph.AnalyzerOf | artifacts/dice/dice.py:37-41 | the analyzer's graph is well formed |
| DiceGraph.BuildAnalyzer | artifacts/dice/dice.py:37-41 | `DependencyAnalyzer.__init__` builds the graph, reverse map and choice groups of the specification (and no select map) |
| DiceGraphProps.AddEdgeOk | artifacts/dice/dice.py:68 | adding an edge that a relationship of the tree justifies keeps every edge justified |
| DiceGraphProps.ItemEdgesOk | artifacts/dice/dice.py:66-68 | every edge the loop over a dependency expression adds is justified by that expression |
| DiceGraphProps.SelectEdgesOk | artifacts/dice/dice.py:71-76 | every edge the select loop adds is a select or a select-condition relationship of the symbol |
| DiceGraphProps.ImplyEdgesOk | artifacts/dice/dice.py:79-80 | every edge the imply loop adds is an imply relationship of the symbol |
| DiceGraphProps.AllSymbolEdgesOk | artifacts/dice/dice.py:57-58 | the loop over all symbols keeps every edge justified |
| DiceGraphProps.NodesAddNoEdges | artifacts/dice/dice.py:47-54 | the node loops add no edge |
| DiceGraphProps.ItemEdgesHas | artifacts/dice/dice.py:66-68 | every plain symbol of a dependency expression becomes an edge into the target |
| DiceGraphProps.SelectEdgesHas | artifacts/dice/dice.py:71-76 | every select target and every symbol of a select condition becomes an edge |
| DiceGraphProps.ImplyEdgesHas | artifacts/dice/dice.py:79-80 | every imply target becomes an edge |
| DiceGraphProps.AllSymbolEdgesHas | artifacts/dice/dice.py:57-58 | an edge of any symbol is in the graph after the loop over all symbols |
| DiceGraphProps.AddSelectorsMeans | artifacts/dice/dice.py:111-114 | one symbol's select loop records it as selector of exactly its select targets, keeping earlier pairs |
| DiceGraphProps.SymbolEdgesOk | artifacts/dice/dice.py:62-85 | every edge one symbol adds records a relationship of that symbol under the kind it keeps |
| DiceGraphProps.GraphEdgesJustified | artifacts/dice/dice.py:43-85 | soundness: every edge of the graph is a depends-on, select, select-condition, imply or choice-member relationship of some defined symbol, under the kind the edge kept |
| DiceGraphProps.SymbolEdgesHas | artifacts/dice/dice.py:62-85 | each relationship of a symbol is an edge after its turn |
| DiceGraphProps.GraphEdgesComplete | artifacts/dice/dice.py:43-127 | completeness: every such relationship is an edge, so the target is a dependent of the source and the source a dependency of the target |
| DiceGraphProps.NamedNodes | artifacts/dice/dice.py:47-54 | after the two node loops the nodes are exactly the symbols' names and the choices' ids |
| DiceGraphProps.GraphNodes | artifacts/dice/dice.py:43-60 | the nodes are exactly the defined symbols, the choices and the ends of edges (undefined select targets and condition symbols included) |
| DiceGraphProps.SelectedByMeansSelect | artifacts/dice/dice.py:107-115 | `x` is recorded as selecting `t` exactly when a defined symbol named `x` has `select t` |
| DiceGraphProps.SelectedByIsEdge | artifacts/dice/dice.py:71-115 | every pair of the select map is an edge of the dependency graph |
| DiceImpact.ChoiceConflictsFor | artifacts/dice/dice.py:147-149 | the choice loop for one symbol finds exactly the choices containing it whose members are all being removed |
| DiceImpact.DirectStep | artifacts/dice/dice.py:141-144 | handling one more symbol adds exactly its dependents to the direct set |
| DiceImpact.ConflictsStep | artifacts/dice/dice.py:146-149 | handling one more symbol adds exactly its emptied choices to the conflicts |
| DiceImpact.ComputeRemovalImpact | artifacts/dice/dice.py:133-163 | `directly_affected` is the union of the symbols' dependents, `choice_conflicts` the choices all of whose members are removed and one of which is, and `transitively_affected` the least set containing the direct set and closed under dependents |
| DiceImpact.ClosureStep | artifacts/dice/dice.py:155-160 | one worklist step keeps the invariant, stays below every closed superset, and shrinks the work or the unvisited nodes |
| DiceImpact.Closure | artifacts/dice/dice.py:151-162 | the worklist loop terminates with the least set closed under dependents containing its seeds |
| DiceValidate.ConfigCandidate.constructor | artifacts/dice/dice.py:25-32 | a new candidate holds the configuration and disabled symbols given, with no result and no size reduction yet |
| DiceValidate.SymName | artifacts/dice/dice.py:213 | a `CONFIG_` key loses exactly its prefix; any other key is used as it is |
| DiceValidate.ValidateKconfigConstraints | artifacts/dice/dice.py:201-228 | the check succeeds exactly when kconfiglib evaluates the assignments of the known symbols and no assigned symbol fails the test at line 222: each has no user value, or a text user value equal to its computed string (an int user value never equals the string); a load or assignment error fails it |
| DiceValidate.ValidateConfig | artifacts/dice/dice.py:175-199 | the result is the first failing stage (constraints, build, boot if set, runtime if set) or success, and it is recorded on the candidate with nothing else changed |
| DiceCandidates.AddName | artifacts/dice/dice.py:371-375 | adding a name to a set kept as a list of distinct names keeps it distinct and adds exactly that name |
| DiceCandidates.AddNames | artifacts/dice/dice.py:376-377 | `update` keeps the names distinct and gives the union of both sets |
| DiceCandidates.Dedupe | artifacts/dice/dice.py:353-356 | a component turned into a set has distinct names and the same elements |
| DiceCandidates.GetMenuSymbols | artifacts/dice/dice.py:369-381 | the walk over a menu's children computes the menu's symbol set |
| DiceCandidates.CollectDistinct | artifacts/dice/dice.py:369-381 | the symbols collected from the first children of a menu are distinct |
| DiceCandidates.CollectStep | artifacts/dice/dice.py:373-379 | visiting one more child adds its symbol, or the symbols of its sub-menu, and nothing else |
| DiceCandidates.CollectSound | artifacts/dice/dice.py:369-381 | every collected name is a symbol child or lies in a sub-menu child |
| DiceCandidates.CollectComplete | artifacts/dice/dice.py:369-381 | every symbol child and every name in a sub-menu child is collected |
| DiceCandidates.MenuSymbolsMeaning | artifacts/dice/dice.py:369-381 | a menu's symbols are distinct and are exactly the symbols reachable below it through sub-menus |
| DiceCandidates.LeafGroupsMeaning | artifacts/dice/dice.py:345-350 | a leaf group is exactly `leaf_<name>` holding the one enabled symbol with no dependents |
| DiceCandidates.SccGroupsMeaning | artifacts/dice/dice.py:352-356 | a component group is exactly `scc_<i>` for a component of more than one symbol |
| DiceCandidates.SccGroupsSound | artifacts/dice/dice.py:352-356 | every component group comes from a component of more than one symbol at its index |
| DiceCandidates.SccGroupsComplete | artifacts/dice/dice.py:352-356 | every component of more than one symbol gives its group |
| DiceCandidates.MenuGroupsMeaning | artifacts/dice/dice.py:358-365 | a menu group is exactly `menu_<prompt>` for a top-level menu holding more than one symbol |
| DiceCandidates.CandidateGroupsDistinct | artifacts/dice/dice.py:341-367 | every candidate group holds at least one symbol, with no name twice |
| DiceSearch.ConfigKey | artifacts/dice/dice.py:437 | the key of a symbol always carries the `CONFIG_` prefix |
| DiceSearch.Disable | artifacts/dice/dice.py:433-439 | disabling keeps the dictionary well formed and keeps every existing key in its place |
| DiceSearch.ValuesAppend | artifacts/dice/dice.py:455 | appending a tested candidate appends its value to the history |
| DiceSearch.DisableSymbols | artifacts/dice/dice.py:433-442 | the loop computes the disabled configuration and the set of keys it removed |
| DiceSearch.RenderConfig | artifacts/dice/dice.py:524-528 | the loop writes the `.config` lines of the final configuration |
| DiceSearch.RunTrial | artifacts/dice/dice.py:446-455 | a new candidate holds the disabled configuration, the union of disabled keys and its verdict |
| DiceSearch.BisectCandidate | artifacts/dice/dice.py:477-503 | a candidate is built exactly when the first half is non-empty, with the first half disabled and its verdict |
| DiceSearch.Debloater.constructor | artifacts/dice/dice.py:305-331 | a new debloater holds the tree, the validator and the analyzer of the tree, with no best candidate and no history |
| DiceSearch.Debloater.GetCurrentConfig | artifacts/dice/dice.py:333-339 | the method computes the current configuration |
| DiceSearch.Debloater.IdentifyRemovalCandidates | artifacts/dice/dice.py:341-367 | the method computes the leaf, component and menu groups in that order |
| DiceSearch.Debloater.TryBisectionRemoval | artifacts/dice/dice.py:477-503 | the best candidate becomes the bisection candidate when it passes and is unchanged otherwise; the history is unchanged |
| DiceSearch.Debloater.TryCandidate | artifacts/dice/dice.py:410-473 | one group: skip, veto, trial, adoption or bisection, as the search specification says |
| DiceSearch.Debloater.AttemptCandidate | artifacts/dice/dice.py:446-469 | the trial is recorded and adopted on success; a failed large group goes to bisection |
| DiceSearch.Debloater.Record | artifacts/dice/dice.py:455 | the history grows by exactly the candidate given |
| DiceSearch.Debloater.RunPass | artifacts/dice/dice.py:408-469 | one pass over the groups stops at the first improvement, as the search specification says |
| DiceSearch.Debloater.GuidedSearch | artifacts/dice/dice.py:383-475 | a failing baseline is returned as it is; otherwise the result is the search from the validated baseline |
| DiceSearch.Debloater.ValidateBaseline | artifacts/dice/dice.py:388-394 | the baseline candidate holds the current configuration and its verdict |
| DiceSearch.Debloater.RunPasses | artifacts/dice/dice.py:406-473 | up to the given number of passes, stopping after a pass without improvement |
| DiceSearch.Debloater.SaveResults | artifacts/dice/dice.py:505-531 | the report and `.config` lines written for the best candidate, or nothing when there is none or the baseline is empty |
| DiceSearchProps.TriStateAssignmentRejected | artifacts/dice/dice.py:220-224 | once a known bool or tristate symbol is assigned (its user value is an int), the constraint check fails and the verdict is an invalid configuration, whatever the values |
| DiceSearchProps.VerdictStages | artifacts/dice/dice.py:175-199 | a candidate passes exactly when every configured stage passes; a failure names the first failing stage, and a stage that is not configured never fails |
| DiceSearchProps.KeyNameRoundTrip | artifacts/dice/dice.py:437 | adding the prefix and stripping it again gives the symbol back, and the other way round |
| DiceSearchProps.AssignmentsIgnoreUnknown | artifacts/dice/dice.py:211-216 | a key whose symbol the tree does not know changes no assignment |
| DiceSearchProps.UnknownKeyIgnored | artifacts/dice/dice.py:201-228 | setting a key whose symbol the tree does not know does not change the constraint check |
| DiceSearchProps.KeysMeaning | artifacts/dice/dice.py:435-439 | the removed keys are exactly the keys of the group's symbols |
| DiceSearchProps.DisableMeaning | artifacts/dice/dice.py:433-439 | after disabling, the removed keys map to `n`, every other key keeps its value, and no other key appears |
| DiceSearchProps.CurrentConfigPrefixed | artifacts/dice/dice.py:333-339 | every key of the current configuration carries the `CONFIG_` prefix |
| DiceSearchProps.PassIdle | artifacts/dice/dice.py:412-414 | when the configuration's keys are prefixed and the groups hold bare names, a pass skips every group and changes nothing |
| DiceSearchProps.SearchIdle | artifacts/dice/dice.py:406-473 | under the same conditions the whole search changes nothing |
| DiceSearchProps.CandidatesBare | artifacts/dice/dice.py:341-381 | the candidate groups hold bare symbol names when the tree's names and components do |
| DiceSearchProps.GuidedSearchNeverTries | artifacts/dice/dice.py:383-475 | with bare symbol names the search returns the baseline and tests nothing more, because the skip check compares bare names with prefixed keys |
| DiceSearchProps.VetoedGroupUntouched | artifacts/dice/dice.py:416-431 | a group containing a symbol selected by an enabled selector changes nothing |
| DiceSearchProps.PassingTrialAdopted | artifacts/dice/dice.py:446-464 | a group that is tried and passes becomes the best candidate, is recorded, and counts as an improvement |
| DiceSearchProps.BisectionIsNotImprovement | artifacts/dice/dice.py:457-469 | a failing large group whose first half passes adopts the half, yet the pass does not count it as an improvement |
| DiceSearchProps.BisectAdopts | artifacts/dice/dice.py:477-503 | a passing first half becomes the best candidate with the half's keys added to the disabled set |
| DiceSearchProps.BisectProgress | artifacts/dice/dice.py:477-503 | bisection only ever adds disabled keys and never records a test |
| DiceSearchProps.TryGroupProgress | artifacts/dice/dice.py:410-469 | one group only adds disabled keys and records at most one test |
| DiceSearchProps.PassProgress | artifacts/dice/dice.py:408-469 | a pass only adds disabled keys and records at most one test per group |
| DiceSearchProps.SearchProgress | artifacts/dice/dice.py:406-473 | the search only adds disabled keys and records at most one test per group per iteration |
| DiceSearchProps.PassStopsAtImprovement | artifacts/dice/dice.py:457-464 | once a group improves, the later groups of that pass are not looked at |
| DiceSearchProps.PassWithoutImprovement | artifacts/dice/dice.py:408-469 | a pass with no improvement in its first groups continues from their state |
| DiceSearchProps.ReportNeverShrinks | artifacts/dice/dice.py:505-520 | disabled symbols stay as `n` entries, so the final size is never below the baseline size, and the test count covers earlier tests |
| DiceSearchProps.FirstEquals | artifacts/dice/dice.py:526-528 | the position returned is the first `=` of the line, or its end |
| DiceSearchProps.ConfigLineRoundTrip | artifacts/dice/dice.py:524-528 | a written `.config` line reads back as its key and value, `n` as a not-set comment |
| DiceSearchProps.FirstEqualsAfter | artifacts/dice/dice.py:528 | in `K=V` with no `=` in `K`, the first `=` follows the key |
| DiceSearchProps.ConfigLinesRoundTrip | artifacts/dice/dice.py:522-528 | the `.config` file has one line per entry, in key order, and each reads back as its entry |
| DiceSearchProps.LinesLength | artifacts/dice/dice.py:524-528 | one line is written per key |
| DiceSearchProps.LineAt | artifacts/dice/dice.py:524-528 | line `i` is the line of key `i` |

## Left out

- Reading and writing files, directory walks (`iter_files`, `os.walk`), `copy_file`, CSV and JSON writers, argparse, every `main` function, console output, and the handling of `KeyboardInterrupt` and other exceptions. Files are modelled as sequences of lines.
- Building, booting and the runtime test (`_test_build`, `_test_boot`, `_test_runtime`: subprocesses, timeouts, `make`) become predicates of the `Validator` value. `build_time` and its wall-clock timing are not modelled.
- kconfiglib (parsing, `load_config`, `set_value`, `str_value`, `write_config`) becomes a `KconfigOracle` value: the known symbol names, plus each symbol's user value and computed string after the assignments. The user value is an int for a bool or tristate symbol and text otherwise, as kconfiglib stores it. The Kconfig tree is a value (symbols with their dependencies, selects, implies and choices, plus the top-level menu tree).
- The strongly connected components of networkx are an input of the debloater; they are not computed.
- `id(choice)` identifiers become abstract choice ids carried by the tree.
- MaxSAT solving with RC2 and reading back the model (config_solver.py:244-268) are foreign. The model builds the weighted problem handed to the solver and proves what its hard clauses mean.
- `reduction_percentage` is a float and is not modelled. The case where its division by zero raises is: the saved result is then `None`.
- Python's set and dict iteration order cannot be known. The model takes a fixed order: sets of names iterated by the source (a group's members, `first_half`, the worklist) are sequences, or sets where the order cannot matter.
- `\w` and `\b` in the regular expressions are taken over ASCII letters, digits and `_`. Python's Unicode word characters are not modelled.
- `Branch` and `IfStackEntry` objects are values, not objects updated in place. Setting `end_body` on the last branch replaces that branch in the stack. Nothing else refers to a branch, so the effect is the same.
- ExprParser.Parser.Expr, ExprParser.Parser.Term, ExprParser.Parser.Factor: the source's recursion raises `RecursionError` on very deeply nested parentheses or `!`. The model parses any depth.
- DiceImpact.ComputeRemovalImpact: the worklist is a set, not a list, so duplicate entries and the order of `pop` are not modelled. The result is the same set.
- DiceSearch.Debloater.GuidedSearch: the iteration count (`--max-iterations`, an int at dice.py:541) is a `nat` here, as are the counts of `DiceSearch.Search` and `DiceSearch.Debloater.RunPasses`. A negative count runs no pass in the source (`range(n)` is empty), the same as 0, so the model covers it by passing 0.
- DiceSearch.Debloater.GuidedSearch: the select map the veto reads is a field given to the constructor. In the source no `selected_by` attribute is ever set, so reaching the veto at dice.py:421 would raise `AttributeError`. The model does not capture that error. It is never reached for the groups the source produces, because the test at dice.py:413 skips them all first.
- DiceSearch.Debloater.GuidedSearch: when the baseline fails, the source returns it without storing it as the best candidate. The model does the same, so `SaveResults` afterwards gives `None` where the source would raise.
- DiceValidate.ValidateKconfigConstraints: kconfiglib stores the user value of a bool or tristate symbol as the int 0, 1 or 2, while `str_value` is a string. So the comparison at dice.py:222 fails for every assigned bool or tristate symbol, and the check rejects any configuration that assigns one, the baseline included. The model keeps this (`DiceSearchProps.TriStateAssignmentRejected`). Which symbols are bool or tristate is part of the oracle, not computed from the tree.
- DiceValidate.ValidateKconfigConstraints: an exception kconfiglib raises while loading or assigning is modelled as a `None` outcome of the oracle, not as an exception. Either way the check fails.
