# Soletta: models of the Kconfig engine, the FBP front end and two run-time containers

The project models the parts of Soletta where a small change breaks something far away.

- **Kconfig expressions** (`tools/kconfig/expr.c`). Expressions have one of the values n < m < y.
  `Kconfig{Expr,Eq,Transform,Join,Spine,Dups,Simplify,Submenu}` give every pass as a function on trees and
  prove what it does to the value. `KconfigEqExact` says exactly what is recognised as equal, `KconfigClean`
  what is gone when the simplifier is done, `KconfigDecision` when exactly an entry goes below another. The passes that receive two pointers into one tree are given on
  positions (paths), so that self-aliasing is visible. `KconfigInPlace`, `KconfigEqInPlace` and
  `KconfigDupsInPlace` run elimination, transformation, `expr_trans_bool`, `expr_eq`, `expr_eliminate_eq`
  and the loop of `expr_eliminate_dups` on nodes that are overwritten, and tie them to those functions. `KconfigPropagate` composes them as `menu_finalize` does.
- **Kconfig symbols** (`tools/kconfig/symbol.c`). `KconfigSymbols` defines the value of a symbol by plain
  recursion and `KconfigMeaning` says what it is in terms of prompts, defaults and selections; `KconfigEvaluator` is the evaluator with its SYMBOL_VALID flag; `KconfigDepCheck` is the
  search for recursive dependencies with its flags and its stack.
- **Menus** (`tools/kconfig/menu.c`, `tools/kconfig/confdata.c`). `MenuTree` says what `menu_finalize`
  does to a tree and `MenuShape` which tree that is, `MenuHeap` relinks `next`, `list` and `parent`, and `MenuWalk` is the walk of
  `conf_write` and the decision which entry goes below which.
- **Configuration files** (`tools/kconfig/confdata.c`). `ConfText` says what lines are printed and what a
  line that is read means; `ConfFile` writes and reads them with a cut line buffer and in-place unescaping.
- **FBP** (`src/shared/sol-fbp-*.c`, `src/bin/sol-fbp-generator/main.c`). `FbpTokens` says which token comes
  next; `FbpScanner` is the state machine. `FbpReader` says what a token list means, `FbpParser` is the
  parser with its one token of lookahead, `FbpGraph` the graph. `FbpSafety` and `FbpMeaning` prove what
  every graph that is read satisfies. `FbpGrammar` is the language, by a grammar and by what must not be said
  twice; `FbpLegal` and `FbpAcceptance` prove that it is accepted and nothing else, and `FbpWriting` writes it. `FbpExports` is the numbering of exported ports.
- **Run-time containers** (`src/shared/sol-monitors.[ch]`, `src/shared/sol-random.c`). `Monitors` is the
  list of callbacks and `MonitorRuns` every way its operations can interleave; `Mt19937` is the
  random number engine.

A well-formed valuation (`WellFormed`) is what symbol evaluation hands to expressions: y, m and n have
their own values, boolean and tristate symbols have the text of their value, booleans are never m, and
different constants have different texts. `ValuesWellFormed` proves it of evaluated symbols.

`dafny verify dfyconfig.toml` checks the whole project.

## Model

| member | source | states |
|---|---|---|
| KconfigEq.ExprEqSound | tools/kconfig/expr.c:195-235 | whenever `expr_eq` answers 1, both expressions have the same value under every valuation in which y and n have their own values, through the mutual recursion with `expr_eliminate_eq` |
| KconfigEq.ExprEqReflexive | tools/kconfig/expr.c:195-235 | `expr_eq` answers 1 on two copies of any expression |
| KconfigEq.EliminateEqReflectsOrder | tools/kconfig/expr.c:136-190 | if what `expr_eliminate_eq` leaves of the two sides is ordered, the sides were, under every such valuation |
| KconfigSubmenu.EliminatedIsBelow | tools/kconfig/menu.c:352-361 | if `expr_eliminate_eq` leaves y of the second side, the first is at most the second under every such valuation, across the AND and the OR phase |
| KconfigEqExact.ExprEqExact | tools/kconfig/expr.c:195-235 | where y and n do not stand for themselves, `expr_eq` answers 1 exactly for expressions that are the same up to order and grouping of operands |
| KconfigEqExact.ExprEqFolds | tools/kconfig/expr.c:195-235 | with n it answers 1 for A AND n and B AND n, too |
| KconfigEqExact.LeavesYes | tools/kconfig/expr.c:164-190 | of two such expressions, `expr_eliminate_eq` leaves y of the second exactly if the first is a conjunction that has every operand of the second |
| KconfigEqExact.StrikesInPlace | tools/kconfig/expr.c:136-163 | of any two expressions, every operand stays where it is or is struck out |
| KconfigEq.EliminateYNValue | tools/kconfig/expr.c:237-318 | folding y and n keeps the value |
| KconfigEq.EliminateYNFolds | tools/kconfig/expr.c:237-318 | no operand of an AND or OR is y or n afterwards, and where none was, nothing changes |
| KconfigTransform.TransformValue | tools/kconfig/expr.c:642-777 | `expr_transform`, restarts after De Morgan steps included, keeps the three-valued value under every well-formed valuation |
| KconfigTransform.TransformIsNormal | tools/kconfig/expr.c:642-777 | its result has NOT only above a symbol that is not y, m or n, and compares no boolean symbol with y, m or n |
| KconfigTransform.TransformFixes | tools/kconfig/expr.c:642-777 | the expressions of that form are exactly the ones it leaves alone |
| KconfigTransform.TransformIsSigned | tools/kconfig/expr.c:642-777 | with all its restarts it is one descent that carries the sign: every operand stays in its place |
| KconfigTransform.TransformIdempotent | tools/kconfig/expr.c:642-777 | a second run changes nothing |
| KconfigTransform.DeMorgan | tools/kconfig/expr.c:704-722 | the larger tree that the pass is restarted on is lighter than the negation it replaces, so that the restarts end |
| KconfigJoin.JoinValue | tools/kconfig/expr.c:352-508 | every rule of `expr_join_or` and `expr_join_and` gives the three-valued disjunction or conjunction of its operands |
| KconfigClean.JoinExact | tools/kconfig/expr.c:352-508 | two operands are joined if `expr_eq` answers 1, or else exactly if one of the rules in the table has them, in either order, and then into what it says |
| KconfigJoin.ExtractEqValue | tools/kconfig/expr.c:832-881 | the common part that is extracted, joined to either rest, has the value of that side |
| KconfigDups.Dups1Value | tools/kconfig/expr.c:510-560 | `expr_eliminate_dups1`, for all pairs of positions, equal and nested ones included, keeps the three-valued value |
| KconfigDups.ContradictAtExact | tools/kconfig/expr.c:579-612 | the replacement of a contradicting operand in `expr_eliminate_dups2`, where it fires, keeps the value if and only if the value is not m |
| KconfigDups.Dups2Value | tools/kconfig/expr.c:562-616 | `expr_eliminate_dups2`, for all pairs of positions, keeps every value that is not m; an m may become anything |
| KconfigSimplify.RoundDropsLeaves | tools/kconfig/expr.c:618-640 | a round that counts no change changes nothing, and any other ends after folding with fewer leaves, so that the loop ends |
| KconfigSimplify.EliminateDupsValue | tools/kconfig/expr.c:618-640 | `expr_eliminate_dups` keeps every value that is not m |
| KconfigSimplify.EliminateDupsExact | tools/kconfig/expr.c:618-640 | it keeps all three values if the contradiction step of `expr_eliminate_dups2` fires in none of its rounds |
| KconfigSimplify.EliminateDupsCrisp | tools/kconfig/expr.c:618-640 | it keeps the value wherever no symbol that stands for its own value is m |
| KconfigSimplify.EliminateDupsFixpoint | tools/kconfig/expr.c:618-640 | its result is a fixpoint of the round and of the whole pass |
| KconfigClean.EliminateDupsClean | tools/kconfig/expr.c:510-640 | in every result, at every depth, no two operands are equal or the same up to order and grouping, no rule joins two of them, and the negated operands of none are all among the others |
| KconfigClean.ExtractsAll | tools/kconfig/expr.c:832-881 | a whole expression is extracted exactly if the other has all of its operands, where y and n do not stand for themselves |
| KconfigClean.JoinAtPlaces | tools/kconfig/expr.c:535-556 | a join makes the first operand neutral and the second the new one, and leaves all others |
| KconfigClean.ContradictAtPlaces | tools/kconfig/expr.c:579-612 | a contradiction makes the operand the absorbing constant and leaves all others |
| KconfigAtM.EliminateDupsNotExactAtM | tools/kconfig/expr.c:562-616 | (A OR B) AND NOT A AND NOT B, with both symbols m, has value m and is simplified to n |
| KconfigInPlace.EliminateYNInPlace | tools/kconfig/expr.c:237-318 | on nodes, overwriting and taking over children, gives the tree of the function within the old nodes |
| KconfigInPlace.TransformInPlace | tools/kconfig/expr.c:642-777 | on nodes, reusing a negated operation's node as a negation, gives the tree of the function; other nodes are only new ones |
| KconfigInPlace.TransBoolInPlace | tools/kconfig/expr.c:323-347 | on nodes, gives the tree of the function in the same nodes |
| KconfigEqInPlace.EliminateEqInPlace | tools/kconfig/expr.c:136-190 | on two disjoint trees of nodes, gives both trees of the function and keeps them disjoint |
| KconfigEqInPlace.ExprEqInPlace | tools/kconfig/expr.c:195-235 | works on copies, writes to neither argument and gives the answer of the function |
| KconfigDupsInPlace.Dups1InPlace | tools/kconfig/expr.c:510-560 | on nodes, for any two positions in one tree, equal and nested ones included, gives the tree of the function and the number of changes |
| KconfigDupsInPlace.Dups2InPlace | tools/kconfig/expr.c:562-616 | the same for the second pass |
| KconfigDupsInPlace.Simplifier.EliminateDupsInPlace | tools/kconfig/expr.c:618-640 | the loop with its shared change counter ends, gives the tree of the function in nodes of the tree or new ones, and restores the counter |
| KconfigSubmenu.TransBoolKeepsNo | tools/kconfig/expr.c:323-347 | on an expression in the form of `expr_transform`, `expr_trans_bool` changes no n and nothing into n, and never raises the value |
| KconfigSubmenu.TransBoolExact | tools/kconfig/expr.c:323-347 | no tristate is compared with n by != afterwards, where none was nothing changes, and the leaves stay in order |
| KconfigSubmenu.TransBoolNeedsNormal | tools/kconfig/expr.c:323-347 | above a comparison, NOT shows that the form is needed: the value goes from n to m |
| KconfigPropagate.EliminateDupsNormal | tools/kconfig/expr.c:618-640 | simplification keeps the form of `expr_transform` |
| KconfigPropagate.PropagatedMeans | tools/kconfig/menu.c:310-321 | what `menu_finalize` propagates to an entry or a property is the conjunction with what is around it wherever that is not m, and keeps the form |
| KconfigDecision.PropagatedClean | tools/kconfig/menu.c:310-321 | what is propagated is simplified to the end: no two of its operands are equal or joined by a rule, and none are contradictory, at any depth |
| KconfigPropagate.VisibilityMeans | tools/kconfig/menu.c:318-324 | the stored visibility is n exactly where that conjunction is, unless it is m, whether or not it is made boolean |
| KconfigSubmenu.TransCompareRounds | tools/kconfig/expr.c:883-942 | `expr_trans_compare` with n or y gives, in every well-formed valuation, the comparison of the value in which each m is read as y or as n, respectively |
| KconfigSubmenu.TransCompareExact | tools/kconfig/expr.c:883-942 | it gives the comparison of the value if and only if that reading does not change its outcome |
| KconfigSubmenu.TransCompareUnderNot | tools/kconfig/expr.c:883-942 | on the negation of any expression with no m under NOT, for both comparisons and both constants, it is right if and only if the negated expression is not m |
| KconfigSubmenu.TransCompareValue | tools/kconfig/expr.c:883-942 | it is right wherever no operand of a NOT is m |
| KconfigSubmenu.TransCompareInOrder | tools/kconfig/expr.c:883-942 | the leaves stay in order |
| KconfigDecision.DependsExact | tools/kconfig/expr.c:803-830 | `expr_depends_symbol` says yes exactly if an operand of the conjunction, at any place, is the symbol, or its being y, m or not n |
| KconfigDecision.BelongsBelowExact | tools/kconfig/menu.c:343-361 | an entry goes below one with a condition exactly if it contains the symbol and either depends on it in that sense or has all operands of that condition among those of its own, where y and n do not stand for themselves |
| KconfigDecision.BelowUnconditional | tools/kconfig/menu.c:343-361 | below one without a condition it goes exactly if it contains the symbol |
| KconfigDecision.NotNoForm | tools/kconfig/menu.c:333-357 | both conditions are compared in simplified normal form |
| KconfigSubmenu.DependsSound | tools/kconfig/expr.c:803-830 | where `expr_depends_symbol` says yes, the symbol is not n whenever the expression is not n |
| KconfigSubmenu.BelongsBelowRounded | tools/kconfig/menu.c:343-361 | the decision to move an entry below another is sound in every valuation when m is read as y |
| KconfigSubmenu.BelongsBelowSound | tools/kconfig/menu.c:343-361 | an entry moved below another one is not available while that one is n and not visible, wherever reading m as y changes neither condition from or to n |
| KconfigSubmenuAtM.BelongsBelowUnsoundAtM | tools/kconfig/menu.c:343-361 | with dependency NOT B AND (S OR C) and visibility B = n of S, at B = m, S = n, C = y the entry is available, and below an S that is n and not visible |
| MenuWalk.DecisionSound | tools/kconfig/menu.c:340-361 | the same for the entries themselves, with or without prompts |
| MenuWalk.DecisionExact | tools/kconfig/menu.c:333-361 | and exactly: it is the visibility of the entry's prompt that decides, or without a prompt its dependency, against the visibility of the prompt above, if there is one |
| MenuTree.Finalize | tools/kconfig/menu.c:282-425 | whatever is moved below or spliced up, the preorder of the entries stays the same |
| MenuTree.FinalizePrompts | tools/kconfig/menu.c:415-424 | afterwards nothing is below an entry without a prompt |
| MenuShape.FinalizeExact | tools/kconfig/menu.c:282-425 | the result is that of the only grouping in which each entry with a symbol and nothing below it has taken those behind it up to the first that it does not absorb, with entries below those without a prompt moved up |
| MenuShape.SpliceExact | tools/kconfig/menu.c:415-424 | the loop that also runs over what it moves up leaves entries with a prompt as they are and opens all others |
| MenuHeap.MenuLinks.FinalizeMenu | tools/kconfig/menu.c:282-425 | the relinking of `next`, `list` and `parent` turns the links of one tree into exactly those of its finalized tree, parents included, and touches no other entry |
| MenuWalk.Walk | tools/kconfig/confdata.c:790-823 | the walk without recursion ends and visits every entry below the root once, in preorder |
| MenuWalk.FinalizeAndWalk | tools/kconfig/menu.c:282-425 | a root menu that is finalized and then walked gives the entries in the order in which they were parsed |
| KconfigSymbols.SpecUnique | tools/kconfig/symbol.c:209-460 | with acyclic dependencies the values are the only solution of the equations of `sym_calc_value` |
| KconfigMeaning.TriMeans | tools/kconfig/symbol.c:313-460 | the value of a boolean or tristate is the larger of what selections demand and its own: the user's as far as a prompt is visible; if none is or the user gave none, the first default that applies, as far as its condition; else n; with m raised to y for booleans |
| KconfigMeaning.SelectedMeans | tools/kconfig/symbol.c:238-246 | no value is below that of the reverse dependency, and a boolean that is selected at all is y |
| KconfigMeaning.VisibleMeans | tools/kconfig/symbol.c:214-225 | a symbol is visible exactly if the condition of a prompt is not n, as far as the furthest prompt |
| KconfigMeaning.DirectMeans | tools/kconfig/symbol.c:228-237 | the direct dependency counts as n or y, with m as y |
| KconfigMeaning.TextMeans | tools/kconfig/symbol.c:405-424 | the text of a string or number is the user's if a prompt is visible, else that of the symbol in the first default that applies, else empty |
| KconfigMeaning.WrittenMeans | tools/kconfig/symbol.c:350-460 | a symbol is to be written exactly if it is visible, selected, or has a default that applies |
| KconfigMeaning.UndefinedMeans | tools/kconfig/symbol.c:345-348 | an undefined symbol is n, is not written, and its text is its name: it is equal exactly to what has that text |
| KconfigMeaning.WithinRangeExact | tools/kconfig/symbol.c:474-491 | a value is in range exactly if a prompt reaches beyond the selections and setting the value gives it |
| KconfigSymbols.ValuesWellFormed | tools/kconfig/symbol.c:313-460 | evaluation hands only well-formed valuations to expressions |
| KconfigEvaluator.SymbolTable.CalcValue | tools/kconfig/symbol.c:313-460 | in whatever order symbols are evaluated, the memoised evaluator ends, stores the value of the symbol and keeps every stored one right |
| KconfigEvaluator.SymbolTable.SetTristateValue | tools/kconfig/symbol.c:493-527 | accepts the current value and those in range; after a changed value everything is evaluated again and the symbol has it |
| KconfigSymbols.SetThenGet | tools/kconfig/symbol.c:474-527 | a value in range comes through evaluation unchanged |
| KconfigSymbols.SetCurrentThenGet | tools/kconfig/symbol.c:493-527 | the value a symbol already has comes through if and only if there is no visible prompt, or the prompt reaches that far, or a selection forces it |
| KconfigSymbols.SetCurrentMayLower | tools/kconfig/symbol.c:493-527 | a tristate with a prompt up to m and default y is y, accepts y, and is m afterwards |
| KconfigSymbols.DepsExact | tools/kconfig/symbol.c:1184-1213 | the dependencies that are followed are the symbols in the reverse dependency, in the conditions of all properties but selections, and in defaults |
| KconfigDepCheck.DepChecker.CheckAll | tools/kconfig/symbol.c:1059-1287 | from clear flags, a recursion is reported if and only if the dependencies have a cycle; flags and stack are restored; without a report there is an evaluation order |
| KconfigDepCheck.DepChecker.CheckFromOutside | tools/kconfig/symbol.c:1255-1287 | a call from outside always returns a null pointer, also where it reports |
| ConfFile.EscapeString | tools/kconfig/symbol.c:915-956 | `sym_escape_string_value` puts a backslash before every quote and backslash, and quotes around |
| ConfFile.UnescapeInPlace | tools/kconfig/confdata.c:162-176 | the loop with `memmove` leaves the text up to the first unescaped quote, with escapes undone, or refuses if there is none |
| ConfText.UnescapeEscaped | tools/kconfig/confdata.c:162-176 | unescaping undoes escaping for every string, whatever follows the closing quote |
| ConfFile.ConfReader.ReadLine | tools/kconfig/confdata.c:317-384 | on a cut line buffer, does what the line means |
| ConfText.AssignedLine | tools/kconfig/confdata.c:126-194 | what a line "CONFIG_X=..." sets, by type, whoever wrote it |
| ConfText.TristateFormat | tools/kconfig/confdata.c:488-508 | the lines that are written for y, m and n, letter by letter |
| ConfText.IntValidExact | tools/kconfig/symbol.c:559-571 | an int is accepted exactly if it is the decimal notation of a number, or "-0" |
| ConfText.HexValidExact | tools/kconfig/symbol.c:572-580 | a hex value exactly if it is hexadecimal digits, with 0x or 0X before them or not |
| ConfText.WriteThenRead | tools/kconfig/confdata.c:488-508 | without newlines in strings, reading back a written list of distinctly named symbols and titles restores every value if and only if no title unsets a symbol before it, and leaves other symbols alone |
| ConfText.RestoredIff | tools/kconfig/confdata.c:317-384 | from the state in which a load starts, all values are restored if and only if no string has a newline in it and no title unsets a symbol before it |
| ConfText.TitleMayUnset | tools/kconfig/confdata.c:317-345 | after X = y, a comment with the text "CONFIG_X is not set" sets X to n when the file is read |
| ConfFile.SaveAndLoad | tools/kconfig/confdata.c:741-830 | the writer followed by the reader, on a fresh table, restores all values under exactly that condition |
| FbpScanner.Scanner.ScanToken | src/shared/sol-fbp-internal-scanner.c:683-697 | ends, and gives the token that comes next at that place in that state, with its position |
| FbpScanner.ScanAll | src/shared/sol-fbp-internal-scanner.c:683-697 | the tokens are those of the reference; with skipped blanks they tile the text; each has the position of its start; at most 2n + 1 tokens, of which only the last is the end or an error |
| FbpTokens.LexAllPlain | src/shared/sol-fbp-internal-scanner.c:95-99 | only after a colon, in the contents of a declaration, can an identifier have a hash sign in it |
| FbpTokens.LineExact | src/shared/sol-fbp-internal-scanner.c:47-75 | the line of a position counts the newlines before it |
| FbpTokens.ColumnExact | src/shared/sol-fbp-internal-scanner.c:47-75 | its column counts the characters since the last of them |
| FbpTokens.OpenThenName | src/shared/sol-fbp-internal-scanner.c:628-635 | after every opening parenthesis comes a name, if an empty one |
| FbpGraph.Graph.AddNode | src/shared/sol-fbp-graph.c:67-117 | a name is found again, its component can be given once, and "_" is a new node each time |
| FbpGraph.AnonNameInjective | src/shared/sol-fbp-graph.c:80-85 | names generated from different positions differ |
| FbpSafety.AnonNameIsNew | src/shared/sol-fbp-graph.c:80-85 | a generated name is no name that the text before it has given |
| FbpParser.Parse | src/shared/sol-fbp-parser.c:715-745 | verdict, error position and graph are those of the reference reader, so acceptance is settled both ways; the graph is in order for every text, and that of an accepted text means the text |
| FbpAcceptance.AcceptedExactly | src/shared/sol-fbp-parser.c:113-746 | a text is accepted exactly if its tokens spell statements of the grammar in which nothing is said twice and every node has a component; no function of the reader is named |
| FbpAcceptance.SpelledIsAccepted | src/shared/sol-fbp-parser.c:113-746 | whatever statements the tokens spell decide it, and the graph of an accepted text holds what they say and nothing else |
| FbpWriting.WrittenIsSpelled | src/shared/sol-fbp-internal-scanner.c:101-697 | the tokens of any statements, written out with plain and quoted values, keywords and indexes, spell these statements |
| FbpAcceptance.WrittenIsAccepted | src/shared/sol-fbp-parser.c:715-745 | statements that are written out are accepted exactly if they are legal, and their graph is what they say |
| FbpSafety.GraphIsFit | src/shared/sol-fbp-graph.c:67-368 | for every text, accepted or not: node names, connections, exported names, declarations and options are distinct, exported port ranges never overlap, indices are valid, ports are listed where they are used |
| FbpMeaning.InterpretMeans | src/shared/sol-fbp-parser.c:113-686 | in an accepted text each arrow, export, declaration and option has exactly its entry, each parenthesis its node with the component in it, and each node has exactly the metadata of its parentheses, in order |
| FbpReader.PortIndexOfDecimal | src/shared/sol-fbp-parser.c:517-547 | a decimal index without leading zeros is read as itself, or as no index when it does not fit an int |
| FbpReader.PortIndexOfOctal | src/shared/sol-fbp-parser.c:517-547 | digits after a leading zero are read as octal |
| FbpReader.PortIndexOfNone | src/shared/sol-fbp-parser.c:517-547 | with an 8 or a 9 among them there is no index |
| FbpExports.StoreExportedPorts | src/bin/sol-fbp-generator/main.c:1976-2020 | stores for each exported port the running index, size and type of the port it stands for |
| FbpExports.Output.GenerateExports | src/bin/sol-fbp-generator/main.c:1008-1040 | prints the rows of the exports in order |
| FbpExports.NumberingAgrees | src/bin/sol-fbp-generator/main.c:977-1040 | every stored index is the offset of the first row of its port if and only if no type has two ports of an exported name |
| FbpExports.Refused | src/bin/sol-fbp-generator/main.c:977-1020 | an export is refused exactly for a port that the type does not have, or an index beyond its array |
| FbpExports.RowsOfExport | src/bin/sol-fbp-generator/main.c:977-1040 | then the rows of the exports follow each other without gap or overlap and list the ports of the child in order |
| FbpExports.ConnectionLands | src/bin/sol-fbp-generator/main.c:886-975 | then a connection that is accepted ends at the row of the port of the child that is meant, and is refused exactly for a missing or oversized index |
| FbpExports.EndPointOfListed | src/bin/sol-fbp-generator/main.c:886-975 | any connection ends at the first port of the name: a single port whatever the index, an array only with an index within it |
| FbpExports.EndPointOfUnlisted | src/bin/sol-fbp-generator/main.c:761-780 | without a port of the name it is refused, except that every type has the port "ERROR", whose number is 65534 |
| FbpExports.NumberingMayDisagree | src/bin/sol-fbp-generator/main.c:1976-2020 | with two ports of one name, the stored index is 1 and the first row is 0 |
| Monitors.MonitorList.DeletePendingElements | src/shared/sol-monitors.c:53-76 | the backward loop leaves the vector and the counter of the specification |
| Monitors.SweepAll | src/shared/sol-monitors.c:53-76 | with the right counter exactly the marked entries go, in order |
| Monitors.SweepCounter | src/shared/sol-monitors.c:53-76 | the assertion after the loop holds exactly if no more deletions were counted than entries are marked |
| MonitorRuns.StepKeeps | src/shared/sol-monitors.c:78-133 | every append, deletion, walk and clearing keeps the invariant, also from within callbacks and cleanups |
| MonitorRuns.NothingMoves | src/shared/sol-monitors.c:78-133 | as long as something is under way no entry moves or vanishes |
| MonitorRuns.EveryRun | src/shared/sol-monitors.c:78-133 | after every run: the counter is the number of marked entries except within clearing; with nothing under way the list is the surviving entries in order; cleanup saw each removed entry once; a walk called what it started from and was still live |
| MonitorRuns.EveryWalk | src/shared/sol-monitors.h:111-143 | a walk anywhere in a run, when no turn is left, has had one turn for each entry that was there before it began, and has called in order exactly those not deleted by the time of their turn |
| MonitorRuns.EveryClear | src/shared/sol-monitors.c:102-124 | clearing, anywhere in a run, does nothing within a walk, a deletion or a clearing; else it goes on to an end at which the list is empty and every entry ever appended is gone, and cleaned up if there is a cleanup function |
| MonitorRuns.GoneIsRemoved | src/shared/sol-monitors.c:78-133 | after any run the entries that are gone are those that were deleted or cleared from the list, and no others |
| MonitorRuns.StepWalkNext | src/shared/sol-monitors.h:111-143 | a walk calls the entry it comes to exactly if that is still live |
| Mt19937.Engine.Generate | src/shared/sol-random.c:130-158 | the k-th word is the tempered word k + 624 of the infinite sequence, although one block is overwritten in place |
| Mt19937.NextWord | src/shared/sol-random.c:137-146 | word k + 624 of the sequence is made of words k, k + 1 and k + 397 |
| Mt19937.KnownTwists | src/shared/sol-random.c:137-146 | from the seed 5489, words 624 and 625, one from an even and one from an odd combination, in numbers |
| Mt19937.KnownTempering | src/shared/sol-random.c:149-153 | the first two words that are given from that seed, in numbers |
| Mt19937.TemperBijective | src/shared/sol-random.c:149-153 | tempering is a bijection on the 32-bit words |
| Mt19937.SeededUnique | src/shared/sol-random.c:111-128 | the sequence is a function of the seed |
| Mt19937.Engine.FillBuffer | src/shared/sol-random.c:315-336 | the words that follow, rounded up to whole words |

## Findings

Properties that one might expect and that the code does not have.

- `expr_eliminate_dups` is not exact at m: `EliminateDupsNotExactAtM` gives the input, `ContradictAtExact`
  when the step is right, `EliminateDupsExact` a condition on a whole run.
- `expr_trans_compare` reads an m below a NOT as decided. `TransCompareExact` says where that is right.
  `menu_finalize` decides with it, so that an entry can end up below a symbol that is n and not visible
  while the entry itself is m (`BelongsBelowUnsoundAtM`). `BelongsBelowSound` says where it cannot.
- `expr_trans_bool` turns n into m above a comparison (`TransBoolNeedsNormal`). The program applies it to
  simplified output of `expr_transform` only, where it cannot (`VisibilityMeans`).
- `sym_set_tristate_value` accepts the value a symbol already has without looking at its prompt, and may
  thereby lower it (`SetCurrentMayLower`; `SetCurrentThenGet` says when).
- `sym_check_deps` called on a symbol from outside returns a null pointer even where it reports a
  recursion, so the count that `conf_parse` keeps of its results stays 0 (`CheckFromOutside`, `CheckAll`;
  tools/kconfig/zconf.y:510-516).
- A string with a newline does not survive writing and reading, and the title of a comment that reads
  "CONFIG_X is not set" unsets X (`RestoredIff`, `TitleMayUnset`).
- The numbers that `store_exported_ports` gives to exported ports differ from the rows that
  `generate_exports` prints where a type has two ports of one name (`NumberingMayDisagree`).
- An FBP port index that does not fit an int, or is octal with a digit 8 or 9, counts as no index: the
  conversion fails and leaves -1. The test of `(long)(int)idx` after it never fails, nor does the one for
  something left over after the statements (src/shared/sol-fbp-parser.c:260-261, 667-668).
- `expr_eliminate_eq` compares operands of conjunctions and disjunctions only: if both conditions are one
  and the same single symbol, it leaves them, and `menu_finalize` sees no relation (`LeavesYes`).
- The branch of `parse_node` for empty parentheses is never taken: after "(" the scanner always gives a
  name, if an empty one (`OpenThenName`; src/shared/sol-fbp-parser.c:490-496).
- A comment in an FBP text becomes part of the token that follows it.
- `sol_random_fill_buffer` appends whole words, so up to three bytes more than it returns.
- `sol_monitors_del` on an entry that is marked already counts it twice; the assertion after the loop
  then fails (`SweepCounter`).

## Left out

- Dups2Value: values that are m are not kept, because the code does not keep them; `ContradictAtExact` has the exact condition for one step.
- EliminateDupsValue: likewise; `EliminateDupsExact` and `EliminateDupsCrisp` have conditions under which all values are kept.
- PropagatedMeans: likewise, since it contains the simplifier.
- BelongsBelowSound: requires that rounding misjudges neither condition, because the code is unsound otherwise; only a misjudged comparison can make it fail, but not every one does.
- TransBoolKeepsNo: requires the form of `expr_transform`, because it fails without.
- EliminateDupsInPlace: a pointer into the tree is given as the path to it; copies made only to be looked at (for the joins and for the negation in the second pass) are values, and what `expr_join_*` and `expr_extract_eq` do within those copies is not modelled on nodes.
- SetThenGet: the symbol for modules keeps its value; changes to it are not modelled.
- MenuLinks: the pointers of menu entries are three maps from entries to entries instead of fields of objects.
- FbpParser: error texts are not modelled, only their positions; which token is reported is said by the reader alone.
- ExprEqExact: requires that y and n do not stand for themselves, because with them more is recognised (`ExprEqFolds`).
- BelongsBelowExact: requires the same of the simplified conditions; `BelongsBelowRounded` needs no such thing.
- StepKeeps: deletion of an entry that is marked already is not a possible event.
- `E_LIST`, `E_RANGE` and `E_NONE` expressions, which the passes treat as not applicable.
- `expr_trans_compare` with constants other than y and n, which the program does not use.
- Choice groups, ranges (`P_RANGE`), environment defaults, warnings and the flags used only by user interfaces.
- Allocation failure, 16-bit overflow of vectors, memory release, and assertions with side effects compiled away.
- The qsort of connections and the C text that the generator prints around the rows.
- Reading of automatic configurations (`S_DEF_AUTO`, `S_OTHER`), the heading of the file, files whose last line has no newline or that hold null characters, and names with a space, an equals sign or a newline.
- Negative array sizes in type descriptions.
- The other random engines and the platform's seed, which is a parameter.
- Graphical and terminal front ends, file and process I/O, Python generators, dynamic loading: no hard properties of their own.
