# Verified models of the NEMU and Abstract Machine cores

Dafny models of the algorithmic cores of this repository, with proofs of what each core is for.
`dafny verify dfyconfig.toml` checks the whole project.

**Kconfig expressions** (`nemu/tools/kconfig/expr.c`). `KconfigExpr`, `KconfigEq`, `KconfigJoin`, `KconfigDups` and
`KconfigTransform` define every rewrite of dependency expressions on values and prove what it keeps: removing y and n,
cancelling common operands, joining and removing duplicates, pushing negation down, dropping comparisons with n.
`KconfigSame` proves, on multisets of operands, exactly when two expressions are reported equal. `KconfigNodes`,
`KconfigSlots` and `KconfigSuperset` model the same procedures on linked nodes that are overwritten, with cursors of
type pointer to pointer, and prove that they compute those functions, allocate only new nodes and touch nothing else.
`KconfigSubmenu` proves the decision on automatic submenus sound, and `KconfigTaken` exactly when it takes an item.

**Kconfig symbols and menus** (`symbol.c`, `menu.c`, `confdata.c`). `KconfigSymbols` gives the meaning of a symbol table
as a system of equations, `KconfigEvaluate` the evaluator with its memo flags and fields, `KconfigValues` what holds of
the final values, `KconfigOutcome` what they are by the properties of the symbols, and `KconfigCycle` the search for
dependency cycles. `KconfigForest`, `KconfigDeps` and `KconfigFinalize` model the menu nodes with their `list`, `next`
and `parent` fields, `menu_finalize` with automatic submenus and flattening, and the walk of `conf_write` that needs no
stack; `KconfigArrange` defines the arrangement of the menus that they prove to result, `KconfigPlace` says where each
node then is, and `KconfigMenus` what its submenus mean for the calculated values.

**Kconfig texts** (`preprocess.c`, `symbol.c`, `confdata.c`). `KconfigMacro` is the recursive macro expander with its
counters, `KconfigMacroMeaning` what references stand for, `KconfigString` the quoting of strings and reading them back
in place.

**Wide arithmetic**. `Int64` is the division of `abstract-machine/klib/src/int64.c` with its bit counts, `LongLong` the
double-word macros of `longlong.h` and `__multi3` for every word size. `Bits` has the facts on shifts and masks, and
`Truncation` those on truncating division.

**Debugger expressions** (`nemu/src/monitor/sdb/expr.c`). `DebugExpr` is the token loop, the search for the root
operator and the evaluator, against a precedence grammar stated as trees. `DebugGrammar` writes the grammar out without
numbered levels and says what the operators compute.

**Page tables and decoder**. `PageEntry` and `Paging` are the 32-bit page tables of `vme.c` over a memory of pages with
any number of address spaces and their clients' pages, and `PagingInit` builds the kernel's tables. `InstPattern` is the
pattern decoder of `decode.h`, `RiscvImm` the operands of RV32 instructions in `inst.c`, and `RiscvControl` its branches
and jumps from the encoded word to the next instruction.

## How it is modelled

- An assignment (`KconfigExpr.Env`) gives symbols their values and comparisons their signs. `WellTyped` says what
  evaluation guarantees; `KconfigValues.SettledIsWellTyped` proves that the evaluator does.
- A tree of nodes is described by a ghost `Shape`, which nodes it has and where. `Stands(s, n, e)` says that the nodes
  are linked as `s` says, none twice, and spell `e`. Freed nodes are nodes no shape mentions.
- A menu tree is described by a ghost `Forest`; `Linked` says that the three pointer fields of all nodes agree with it.
- The symbol table of `KconfigEvaluate` is ranked: every symbol ranks above what it depends on. `KconfigCycle.Configure`
  obtains the ranking from the cycle check, so it is no assumption on the input.
- `KconfigDeps.Snapshot` holds the expressions of the menu nodes as read and as they will be; `Expected` says how these
  follow from those, and `KconfigFinalize.Foresee` that such a snapshot always exists.
- A page belongs to a client when it is neither free nor any table (`Paging.Mmu.IsClient`). `Tidy` says that the tables
  of all spaces are in order and that user mode reaches pages of clients only; every operation keeps it.
- Words are integers with wrap-around written out, or bit vectors in `RiscvImm` and `RiscvControl`. `Int64` and the
  debugger have fixed widths; `LongLong` is proved for every positive number of bits in a half-word.
- Register values of the debugger, memory contents, how a whole text reads as a Kconfig number, built-in macro functions
  and the environment are parameters.

## Where the code does less than its documentation says

- Joining `A = c` and `A != d` under AND compares the constants by identity (`expr.c:546-562`). Two constants may denote
  the same value, as n and 0 do, because both sides of a comparison are read as numbers when they can be. The join then
  changes the value exactly where the tristate A has that value: `KconfigJoin.JoinAndExactAt` says so in one assignment,
  `JoinAndExact` in all, and `KconfigSubmenu.AliasedConstantsChangeValue` gives an input. For whole expressions the
  theorems ask (`CleanConstants`) that no tristate is tested, with = or !=, against a constant other than y, m and n
  that denotes the value it has; comparisons of numbers, texts and bools and all orderings are free.
- The superset test of automatic submenus reads NOT as two-valued and reads a symbol used as a value by its text. It is
  sound where no symbol under a NOT is m and no number, text or undefined symbol is used as a value (`Sane`); an item
  that depends on the symbol itself needs neither. `KconfigSubmenu.NegatedTristateIsUnsound` gives an input with a
  tristate under NOT whose item is m while symbol and prompt dependency are n, and `NumberAsValueIsUnsound` one with a
  number: it is n as a value, and its comparison with n says that it is not.
- Before the superset test duplicates are removed from both sides, which also joins operands that imply each other. An
  item can lose in that way an operand that the prompt asks for, and is refused although it has all of them:
  `KconfigTaken.JoinedOperandIsRefused` gives the input, `GoesBelowExactly` says exactly when items are taken.
- The comment at `expr.c:569` says that a symbol that is neither m nor n is m; the code makes it y, and y is right.
- A string symbol whose default names a bool or tristate gets the text n whatever the value of that is, since only the
  tristate part of such a value is ever set (`symbol.c:355-357` and `422-429`). `KconfigValues.SwitchDefaultIsNo` says
  so, and `DefaultTextExactly` when the text is right nevertheless.
- The splitting loop of `eval_clause` accepts up to seventeen pieces, while its array has places for sixteen
  (`preprocess.c:350` and `384-399`). `KconfigMacro.OutsideExactly`: the loop stores outside if and only if the clause
  has sixteen commas outside parentheses; `SixteenCommas` is such a clause. The result is then `Undefined` in the model.
- The debugger takes `0x` and `0X` for the start of a hexadecimal number and reads the latter as 0
  (`DebugExpr.ReadNumberExactly`, `UpperPrefixIsMisread`). Its operator scan stops the program at a name outside
  parentheses, so the evaluator is stated for tokens without names.

## Model

| member | source | states |
|---|---|---|
| KconfigExpr.YnKeepsValue | nemu/tools/kconfig/expr.c:316-397 | Removing y and n operands keeps the value in every assignment. |
| KconfigExpr.YnRemovesConstants | nemu/tools/kconfig/expr.c:316-397 | No AND or OR node of the result has y or n as an operand, however deep. |
| KconfigEq.CancelOperandsSplits | nemu/tools/kconfig/expr.c:150-193 | What is cancelled is one common value: each input is its reduced form with that value put back by the gate. Leaves are paired off one to one. |
| KconfigEq.CancelOperandsReflectsOrder | nemu/tools/kconfig/expr.c:150-193 | Whatever order the two reduced trees have, the original trees have. |
| KconfigEq.EliminateEqReflectsOrder | nemu/tools/kconfig/expr.c:221-242 | Both orders, at most and at least, carry over from the reduced pair to the original pair in every assignment. |
| KconfigEq.ExprEqSound | nemu/tools/kconfig/expr.c:252-303 | Trees reported equal have the same value in every assignment; the mutual recursion with the elimination ends. |
| KconfigSame.CancelIsComplete | nemu/tools/kconfig/expr.c:150-193 | Cancelling takes from both levels the same multiset of operands, compared without order and grouping, and leaves none in common. |
| KconfigSame.EqIsSame | nemu/tools/kconfig/expr.c:252-303 | Two expressions without y and n operands are reported equal if and only if they agree up to the order and the grouping of the operands of their gates, stated on multisets of operands. |
| KconfigSame.EqReflexive | nemu/tools/kconfig/expr.c:252-303 | Every expression, with or without y and n operands, is reported equal to itself. |
| KconfigSame.ConstsStay | nemu/tools/kconfig/expr.c:160-169 | y and n leaves take part in no cancelling. |
| KconfigSame.NoDuplicatesLeft | nemu/tools/kconfig/expr.c:596-686 | No level of the result of removing duplicates, however deep, has two operands that are the same, in whatever order and grouping. |
| KconfigJoin.JoinShape | nemu/tools/kconfig/expr.c:431-587 | A join never is a gate of the level it is made for and is smaller than its two operands together. |
| KconfigJoin.JoinOrKeepsValue | nemu/tools/kconfig/expr.c:431-493 | The join of two operands of OR has the value of their maximum. |
| KconfigJoin.LettersJoin | nemu/tools/kconfig/expr.c:431-587 | Two tests of a tristate for different letters are joined under OR to the test against the third, and their negations under AND to the test for it. |
| KconfigJoin.ConstantsJoin | nemu/tools/kconfig/expr.c:546-562 | Being one constant joins with not being another to the former, and with not being itself to n, in either order. |
| KconfigJoin.SymbolJoins | nemu/tools/kconfig/expr.c:483-587 | A symbol and a test of it are joined to the stronger one in either order; a bool or its negation is y. |
| KconfigJoin.JoinAndKeepsValue | nemu/tools/kconfig/expr.c:495-587 | The join of two operands of AND has the value of their minimum unless the constants are aliased. |
| KconfigJoin.JoinAndExact | nemu/tools/kconfig/expr.c:495-587 | Joining under AND keeps the value in every assignment if and only if the operands do not compare one tristate with two different constants that denote the same value. |
| KconfigJoin.JoinAndExactAt | nemu/tools/kconfig/expr.c:495-587 | In one assignment, it does so if and only if they are not such a pair or the tristate does not have that value. |
| KconfigJoin.JoinKeepsValue | nemu/tools/kconfig/expr.c:431-587 | Either join keeps the value unless a tristate is tested for equality with a constant other than y, m and n that denotes the value it has. |
| KconfigDups.DupsLevel | nemu/tools/kconfig/expr.c:596-650 | A pass of the two cursors keeps the gates of the level, does not grow the tree, changes nothing if it joins nothing and otherwise leaves a y or n operand; the recursion ends. |
| KconfigDups.DupsLevelKeepsValue | nemu/tools/kconfig/expr.c:596-650 | A pass keeps the value of the tree although it overwrites operands of the tree it is walking. |
| KconfigDups.EliminateDupsKeepsValue | nemu/tools/kconfig/expr.c:664-686 | Removing duplicates keeps the value in every assignment; the loop ends because every pass that joins shrinks the tree. |
| KconfigDups.NoJoinMissed | nemu/tools/kconfig/expr.c:596-650 | A pass that joins nothing has compared every pair of different operands of its level in both orders. |
| KconfigDups.EliminateDupsIsComplete | nemu/tools/kconfig/expr.c:664-686 | In the result no level, however deep, has two different operands that could still be joined. |
| KconfigDups.EliminateDupsOperands | nemu/tools/kconfig/expr.c:596-686 | What holds of all operands and is kept by the join rules holds of all operands of the result. |
| KconfigTransform.Transform | nemu/tools/kconfig/expr.c:694-849 | Transforming ends although it transforms its own output again: the result weighs no more than the input, where a negation weighs twice its operand. |
| KconfigTransform.TransformIsNormal | nemu/tools/kconfig/expr.c:694-849 | In the result NOT stands only on symbols other than y, m and n, and no bool is tested against one of them. |
| KconfigTransform.TransformFixesNormal | nemu/tools/kconfig/expr.c:694-849 | A result is a fixed point. |
| KconfigTransform.TransformComparisonKeepsValue | nemu/tools/kconfig/expr.c:715-769 | The tests of a bool against y, m and n are replaced by equal expressions. |
| KconfigTransform.TransformKeepsValue | nemu/tools/kconfig/expr.c:694-849 | Transforming keeps the value in every assignment. |
| KconfigTransform.NegationIs | nemu/tools/kconfig/expr.c:771-831 | Transforming a negation gives the transformed operand with gates and tests turned over at the leaves, and doing so twice gives it back. |
| KconfigTransform.TransBoolShortens | nemu/tools/kconfig/expr.c:402-426 | No comparison with n of a symbol is left, and an expression without one stays as it is. |
| KconfigTransform.TransBoolKeepsNonNo | nemu/tools/kconfig/expr.c:402-426 | Where NOT stands on symbols, dropping the comparison with n never changes whether the value is n, and never raises it. |
| KconfigTransform.TransBoolNeedsNegatedSymbols | nemu/tools/kconfig/expr.c:402-426 | Under a negated comparison it does change that, with the input that shows it. |
| KconfigTransform.RewriteMValue | nemu/tools/kconfig/menu.c:82-105 | The rewritten expression has the value the original has when m stands for m AND MODULES. |
| KconfigSubmenu.AbsentCompares | nemu/tools/kconfig/expr.c:925-930 | An absent dependency is compared as y. |
| KconfigSubmenu.TransCompareIsTruth | nemu/tools/kconfig/expr.c:922-985 | The comparison tree is y or n and says exactly how the two-valued reading of the expression compares. |
| KconfigSubmenu.TruthIsNonNo | nemu/tools/kconfig/expr.c:909-985 | Where NOT stands on no symbol that is m, the reading at n says whether the value is not n. |
| KconfigSubmenu.DependsSymbolSound | nemu/tools/kconfig/expr.c:879-907 | If the test finds a dependency on a bool or tristate, the expression is n whenever that symbol is. |
| KconfigSubmenu.NonNoFormIsTruth | nemu/tools/kconfig/menu.c:456-458 | Comparison, transformation and removal of duplicates together give y exactly where the two-valued reading of the dependency is true. |
| KconfigSubmenu.TypedCompares | nemu/tools/kconfig/expr.c:922-985 | Dependencies in which only bools and tristates are used as values are compared as the reading asks, in every assignment. |
| KconfigSubmenu.GoesBelowSound | nemu/tools/kconfig/menu.c:456-491 | An item is put below a symbol only if, wherever the item is not n, the symbol or its prompt dependency is not n. |
| KconfigSubmenu.PropagateValue | nemu/tools/kconfig/menu.c:350-360 | A child's dependency becomes the minimum of the parent's and its own, the latter with m read as m AND MODULES. |
| KconfigSubmenu.PropagateNegatesSymbols | nemu/tools/kconfig/menu.c:350-360 | Propagation keeps NOT on symbols. |
| KconfigSubmenu.PromptConditionNonNo | nemu/tools/kconfig/menu.c:385-399 | The stored condition of a prompt of a non-tristate is n exactly when the parent's dependency or the prompt's own is. |
| KconfigSubmenu.NegatedTristateIsUnsound | nemu/tools/kconfig/menu.c:476-491 | With a tristate under NOT the superset test accepts an item that is m where both the symbol and its prompt dependency are n. |
| KconfigSubmenu.NumberAsValueIsUnsound | nemu/tools/kconfig/expr.c:922-985 | A number used as a value is n, and its comparison with n says that it is not. |
| KconfigSubmenu.AliasedConstantsChangeValue | nemu/tools/kconfig/expr.c:546-562 | An AND of a comparison with n and one with the constant 0 changes from n to y. |
| KconfigTaken.ContainsExactly | nemu/tools/kconfig/expr.c:851-877 | The symbol is found in the expression if and only if renaming it changes the expression. |
| KconfigTaken.DependsExactly | nemu/tools/kconfig/expr.c:879-907 | A dependency is found if and only if some operand of the conjunction is the symbol itself, its test for y or m, or its test for not n. |
| KconfigTaken.NonNoFormIs | nemu/tools/kconfig/menu.c:456-458 | The form compared is the dependency with the tests for not n at the symbols and negation at the leaves, without duplicates. |
| KconfigTaken.SupersetExactly | nemu/tools/kconfig/expr.c:221-242 | The superset test succeeds if and only if nothing is asked for, or every operand of the conjunction asked for is one of the other, in whatever order and grouping and as often. |
| KconfigTaken.GoesBelowExactly | nemu/tools/kconfig/menu.c:462-490 | Where no bool is tested for m: an item goes below a symbol if and only if it mentions it and has an operand that demands it or all operands of what the prompt asks for. |
| KconfigTaken.DemandIsTaken | nemu/tools/kconfig/menu.c:476-478 | An item with an operand that demands the symbol is taken, whatever the rest of it and the condition of the prompt. |
| KconfigTaken.ConjunctsAreTaken | nemu/tools/kconfig/menu.c:462-490 | Where the two forms have nothing to simplify, an item that has all operands of the prompt's condition and mentions the symbol is taken. |
| KconfigTaken.SourceExample | nemu/tools/kconfig/menu.c:462-475 | For three bools S, Q and R the conjunction of R with the disjunction of S and Q goes below S if its prompt depends on R. |
| KconfigTaken.JoinedOperandIsRefused | nemu/tools/kconfig/menu.c:462-490 | With the input that shows it: an item is refused although it has the prompt's condition as an operand, where that is joined with another operand. |
| KconfigNodes.Overwrite | nemu/tools/kconfig/expr.c:330-335 | Copying a node over another gives a tree of the same expression with the other root. |
| KconfigNodes.EliminateYn | nemu/tools/kconfig/expr.c:316-397 | On linked nodes: the root stays, only nodes of the tree change, and the tree stands for the expression without y and n operands. |
| KconfigNodes.TransBoolNodes | nemu/tools/kconfig/expr.c:402-426 | On linked nodes: the same nodes stand for the shortened expression. |
| KconfigNodes.TransformNodes | nemu/tools/kconfig/expr.c:694-849 | On linked nodes: the returned tree stands for the transformed expression and holds old nodes of the tree and new nodes only. |
| KconfigNodes.DeMorganNodes | nemu/tools/kconfig/expr.c:788-806 | The operand node becomes the left negation, a new node the right one, and the negation node the dual gate. |
| KconfigNodes.CopyNodes | nemu/tools/kconfig/expr.c:66-105 | A tree of new nodes for the same expression. |
| KconfigNodes.EqualNodes | nemu/tools/kconfig/expr.c:252-303 | Comparing by cancelling the operands of two copies decides the equality defined on values and leaves both trees alone. |
| KconfigNodes.CancelNodes | nemu/tools/kconfig/expr.c:150-193 | On two trees without a common node: the nodes to store in the two places stand for the cancelled pair and still share nothing. |
| KconfigNodes.EliminateEqNodes | nemu/tools/kconfig/expr.c:221-242 | The two trees stand for the pair without common operands, still without a common node. |
| KconfigSlots.Opens | nemu/tools/kconfig/expr.c:600-612 | At every place of a level a tree splits into the tree that hangs there and the rest, which share no node. |
| KconfigSlots.Shuts | nemu/tools/kconfig/expr.c:600-612 | The rest and any tree apart from it make up a tree with that operand replaced. |
| KconfigSlots.OperandsApart | nemu/tools/kconfig/expr.c:614-617 | Two cursors see the same node exactly when they stand at the same operand. |
| KconfigSlots.FrameKeepsSlot | nemu/tools/kconfig/expr.c:596-612 | A cursor keeps its place while operands are overwritten. |
| KconfigSlots.StoreSlot | nemu/tools/kconfig/expr.c:631-636 | Writing through a cursor replaces that operand and nothing else. |
| KconfigSlots.JoinNodes | nemu/tools/kconfig/expr.c:431-587 | Null if no rule applies, otherwise a tree of new nodes for the join. |
| KconfigSlots.DupsNodes | nemu/tools/kconfig/expr.c:596-650 | Two pointers to pointers walk and overwrite one tree: afterwards it stands for the result of the pass, and the number of joins added to the counter is right. |
| KconfigSlots.EliminateDupsNodes | nemu/tools/kconfig/expr.c:664-686 | The loop of passes over linked nodes ends with the root in place and the tree of the expression without duplicates. |
| KconfigSuperset.RewriteNodes | nemu/tools/kconfig/menu.c:82-105 | On linked nodes: every m becomes m AND MODULES, in place where the root is not m. |
| KconfigSuperset.CompareNodes | nemu/tools/kconfig/expr.c:922-985 | A new tree for the comparison with y or n; the argument is not changed. |
| KconfigSuperset.PropagateNodes | nemu/tools/kconfig/menu.c:350-360 | The child's nodes become a simplified tree for both dependencies, and the parent's tree is untouched. |
| KconfigSuperset.ConditionNodes | nemu/tools/kconfig/menu.c:385-399 | The same for the condition of a prompt, shortened for a symbol that is not a tristate. |
| KconfigSuperset.ContainsNode | nemu/tools/kconfig/expr.c:851-877 | Decides whether the symbol occurs in the expression. |
| KconfigSuperset.DependsNode | nemu/tools/kconfig/expr.c:879-907 | Decides the dependency test on values. |
| KconfigSuperset.NonNoNodes | nemu/tools/kconfig/menu.c:456-458 | A new tree for the form of the dependency that is compared; the dependency is not changed. |
| KconfigSuperset.GoesBelowNodes | nemu/tools/kconfig/menu.c:462-490 | The whole decision on nodes equals the decision on values, and no given tree is changed. |
| KconfigSymbols.ComputeAgrees | nemu/tools/kconfig/symbol.c:325-447 | The outcome of a symbol is the same under two assignments that agree on the symbols it depends on. |
| KconfigSymbols.FinalSolves | nemu/tools/kconfig/symbol.c:325-447 | The recursive definition without a memo satisfies the equations of all symbols at once. |
| KconfigSymbols.SolutionIsUnique | nemu/tools/kconfig/symbol.c:325-447 | Without cycles no other assignment does. |
| KconfigEvaluate.Table.CalcExpr | nemu/tools/kconfig/expr.c:1030-1102 | The value of an expression, calculated through the memo, is its value in the final assignment. |
| KconfigEvaluate.Table.CalcPrompts | nemu/tools/kconfig/symbol.c:184-201 | The largest condition of the prompts. |
| KconfigEvaluate.Table.GetDefaultProp | nemu/tools/kconfig/symbol.c:83-93 | The first default whose condition is not n, and that condition. |
| KconfigEvaluate.Table.CalcVisibility | nemu/tools/kconfig/symbol.c:177-238 | Visibility and the three dependency values are stored as defined and nothing under calculation changes. |
| KconfigEvaluate.Table.CalcSuggested | nemu/tools/kconfig/symbol.c:390-406 | The default and the implications, limited by the direct dependencies. |
| KconfigEvaluate.Table.CalcSwitch | nemu/tools/kconfig/symbol.c:374-414 | The value and write flag of a bool or tristate. |
| KconfigEvaluate.Table.CalcText | nemu/tools/kconfig/symbol.c:415-431 | The text and write flag of an int, hex or string symbol. |
| KconfigEvaluate.Table.CalcTyped | nemu/tools/kconfig/symbol.c:344-447 | All that is stored for a symbol is what the recursive definition says, although the entry is marked valid before it is calculated. |
| KconfigEvaluate.Table.CalcValue | nemu/tools/kconfig/symbol.c:325-467 | Any call leaves every valid entry right and makes this one valid. |
| KconfigEvaluate.Table.ClearAllValid | nemu/tools/kconfig/symbol.c:469-477 | After clearing, only fixed symbols are valid, and they are right. |
| KconfigEvaluate.Table.CalcAll | nemu/tools/kconfig/symbol.c:325-467 | Symbols calculated from any starting points in any order get their value in the only assignment that satisfies the table. |
| KconfigValues.SelectsHold | nemu/tools/kconfig/symbol.c:220-228 | In the final assignment no bool or tristate is below the value of the selects that point to it. |
| KconfigValues.UserIsBounded | nemu/tools/kconfig/symbol.c:380-411 | A user value raises a symbol no further than its visibility unless a select does. |
| KconfigValues.HiddenIgnoresUser | nemu/tools/kconfig/symbol.c:380-431 | The user value of an invisible symbol has no effect on anything stored. |
| KconfigValues.ImpliesHold | nemu/tools/kconfig/symbol.c:400-405 | Without an applying user value, a symbol is at least its implications limited by its direct dependencies. |
| KconfigValues.CompareFindsDenoted | nemu/tools/kconfig/expr.c:998-1102 | Comparing a bool or tristate with a constant finds equality exactly at the value the constant denotes, as text or as a number. |
| KconfigValues.DefaultIsInTable | nemu/tools/kconfig/symbol.c:422-429 | A text symbol that takes its default from a symbol of the table has the text of that symbol. |
| KconfigValues.SwitchDefaultIsNo | nemu/tools/kconfig/symbol.c:422-429 | If that symbol is a bool or tristate, the text is n. |
| KconfigValues.DefaultTextExactly | nemu/tools/kconfig/symbol.c:422-429 | It is what the named symbol is written as if and only if that is no bool or tristate, or is n. |
| KconfigValues.SettledIsWellTyped | nemu/tools/kconfig/symbol.c:325-447 | The calculated values form an assignment of the kind all the rewrites above are proved for. |
| KconfigValues.TransBoolKeepsVisibility | nemu/tools/kconfig/symbol.c:177-201 | In the calculated values a symbol that is not a tristate is exactly as visible with the shortened conditions of its prompts as before. |
| KconfigValues.SimplifyKeepsTableValue | nemu/tools/kconfig/menu.c:356-359 | Simplifying a dependency does not change its value in the calculated assignment. |
| KconfigValues.SubmenuIsSound | nemu/tools/kconfig/menu.c:456-491 | In the calculated values an item that the test puts below a bool or tristate is not n only where the symbol or its prompt dependency is not n. |
| KconfigOutcome.VisibleReaches | nemu/tools/kconfig/symbol.c:177-201 | The visibility of a tristate is at least t where some prompt is; that of a bool is y where some prompt is not n. |
| KconfigOutcome.FirstDefaultIsFirst | nemu/tools/kconfig/symbol.c:83-93 | No default before the one found applies, and that one does. |
| KconfigOutcome.DefaultReaches | nemu/tools/kconfig/symbol.c:390-399 | The default value is at least t if and only if the first default that applies and its condition both are. |
| KconfigOutcome.SwitchExactly | nemu/tools/kconfig/symbol.c:374-414 | The final value of a tristate is at least t, and that of a bool is y, if and only if a select asks for it, or the user as far as some prompt is visible, or without that the first default that applies or an implication as the direct dependencies allow. |
| KconfigOutcome.UserValueIsTaken | nemu/tools/kconfig/symbol.c:380-411 | An applying user value up to the visibility is the final value, one above it gives the visibility, unless a select asks for more. |
| KconfigOutcome.TextExactly | nemu/tools/kconfig/symbol.c:415-431 | The final text of an int, hex or string is the user's where some prompt is visible, otherwise that of the symbol which the first applying default names, otherwise empty. |
| KconfigOutcome.OthersAreNo | nemu/tools/kconfig/symbol.c:348-366 | A symbol that is no bool or tristate is n as the value of an expression; an undefined one has its name as text. |
| KconfigOutcome.SwitchWriteExactly | nemu/tools/kconfig/symbol.c:374-411 | A bool or tristate is written if and only if it may be and some prompt is visible or a select, default or implication asks for it. |
| KconfigOutcome.TextWriteExactly | nemu/tools/kconfig/symbol.c:415-429 | An int, hex or string is written if and only if it may be and some prompt is visible or the first applying default names a symbol. |
| KconfigOutcome.NumbersCompare | nemu/tools/kconfig/expr.c:1038-1102 | Symbols whose texts are numbers compare as numbers, in this order of the sides; with a hex as numbers modulo 2^64. |
| KconfigOutcome.TextsCompare | nemu/tools/kconfig/expr.c:1038-1102 | Two strings, or texts of which one is no number, compare by the first difference. |
| KconfigOutcome.SwitchesCompare | nemu/tools/kconfig/expr.c:1003-1009 | Bools and tristates compare by their values. |
| KconfigOutcome.EdgesExactly | nemu/tools/kconfig/symbol.c:1165-1211 | A symbol depends on exactly those that its three dependencies mention and those in the conditions and defaults of its properties but for selects and implies. |
| KconfigCycle.RankedHasNoCycle | nemu/tools/kconfig/symbol.c:1130-1211 | A table whose symbols can be ranked above what they depend on has no cycle. |
| KconfigCycle.OrderRanks | nemu/tools/kconfig/symbol.c:1130-1211 | The order in which the search finishes is such a ranking. |
| KconfigCycle.Checker.CheckDeps | nemu/tools/kconfig/symbol.c:1250-1279 | A symbol reported is on a cycle; otherwise it and all it depends on are finished. Flags and stack agree at every step. |
| KconfigCycle.Checker.CheckSymDeps | nemu/tools/kconfig/symbol.c:1165-1211 | The same for all a symbol depends on. |
| KconfigCycle.Checker.CheckExprDeps | nemu/tools/kconfig/symbol.c:1130-1162 | The same for the symbols of an expression. |
| KconfigCycle.Checker.CheckAll | nemu/tools/kconfig/parser.y:513-517 | From clear flags no symbol is reported if and only if there is no cycle, every symbol reported is on one, and no symbol stays flagged. |
| KconfigCycle.Configure | nemu/tools/kconfig/parser.y:513-517 | Checking and then calculating: if nothing is reported, a solution exists and the calculated values are that of every solution. |
| KconfigForest.PreorderVisitsNodes | nemu/tools/kconfig/confdata.c:868-912 | The preorder has every node of the menus and no other. |
| KconfigForest.PreorderNoRepeats | nemu/tools/kconfig/confdata.c:868-912 | It has each once. |
| KconfigForest.Climb | nemu/tools/kconfig/confdata.c:900-911 | Following parent fields leads to the next sibling of the nearest ancestor that has one, or to the end. |
| KconfigForest.Advance | nemu/tools/kconfig/confdata.c:894-911 | One move of the walk leads to the node that the preorder has next. |
| KconfigForest.Walk | nemu/tools/kconfig/confdata.c:868-912 | The walk without a stack ends and visits every node below the root once, in preorder. |
| KconfigDeps.PassedValue | nemu/tools/kconfig/menu.c:336-421 | After finalising, the dependency of a node has the minimum of the values written on it and on all menus that enclosed it. |
| KconfigDeps.PassedPrompt | nemu/tools/kconfig/menu.c:385-399 | The condition of a prompt then has the lesser value of the final dependency and the condition written; for a symbol that is not a tristate it is n exactly where one of these is, and compares no tristate with n. |
| KconfigArrange.FlatIsPrompted | nemu/tools/kconfig/menu.c:575-584 | Flattening leaves children only to nodes with a prompt. |
| KconfigArrange.ArrangedNodes | nemu/tools/kconfig/menu.c:306-585 | What is arranged below a node comes from below it or from the siblings after it. |
| KconfigArrange.RunGoes | nemu/tools/kconfig/menu.c:456-497 | The siblings taken below a symbol are the longest run that belongs there, and without a symbol all are taken. |
| KconfigArrange.ArrangedGoes | nemu/tools/kconfig/menu.c:456-497 | Anywhere in the tree a node goes below a symbol only if the superset test on the final expressions says so. |
| KconfigPlace.FlatNearest | nemu/tools/kconfig/menu.c:575-585 | Flattening takes no node out of a node with a prompt and puts none into one. |
| KconfigPlace.FlatParent | nemu/tools/kconfig/menu.c:575-585 | After flattening the parent of every node is the nearest node around it that has a prompt, so a node with a prompt keeps its children. |
| KconfigPlace.ArrangedNearest | nemu/tools/kconfig/menu.c:575-585 | Flattening at every level of the recursion changes no nearest node with a prompt. |
| KconfigPlace.NestIs | nemu/tools/kconfig/menu.c:456-502 | Before flattening the nodes are in the order as read, each below the node it was read below or below a symbol read with nothing below it for which it passes the test; what then follows such a symbol does not pass. |
| KconfigFinalize.PropagateAll | nemu/tools/kconfig/menu.c:344-420 | The loop gives every child its final dependency and prompt condition and changes no link. |
| KconfigFinalize.FinalizeChildren | nemu/tools/kconfig/menu.c:431-432 | The recursive calls on the children keep the preorder, finalise each node once and arrange the children, although a call may move later siblings. |
| KconfigFinalize.Search | nemu/tools/kconfig/menu.c:456-497 | The loop over the siblings takes exactly the run that the arrangement takes. |
| KconfigFinalize.AutoSubmenu | nemu/tools/kconfig/menu.c:456-502 | The run becomes the children of the symbol: links and parent fields are right and the preorder is unchanged. |
| KconfigFinalize.Splice | nemu/tools/kconfig/menu.c:498-502 | Cutting the run out of the list of siblings leaves two properly ended lists. |
| KconfigFinalize.Reparent | nemu/tools/kconfig/menu.c:576-580 | Every child gets the new parent and none of its descendants does. |
| KconfigFinalize.Flatten | nemu/tools/kconfig/menu.c:575-584 | The children move up behind their parent. |
| KconfigFinalize.FlattenAll | nemu/tools/kconfig/menu.c:506-585 | Flattening the whole list keeps the preorder and the parent fields and gives the flattened forest. |
| KconfigFinalize.Finalize | nemu/tools/kconfig/menu.c:306-585 | One call leaves the links of the arranged forest, keeps the preorder, finalises each node below and each node it takes once, and gives them their final expressions. |
| KconfigFinalize.Foresee | nemu/tools/kconfig/menu.c:336-421 | Every tree has such final expressions. |
| KconfigFinalize.FinalizeAndWalk | nemu/tools/kconfig/confdata.c:868-912 | Finalising the root leaves the arranged forest with the dependencies passed on; the parent field of every node is the nearest node around it that has a prompt, of the tree that the submenus make; and walking then visits every node read, once, in the order in which it was read. |
| KconfigFinalize.PairsBelong | nemu/tools/kconfig/menu.c:456-497 | In the finished tree every node that has gone below a symbol passes the submenu test for it. |
| KconfigMenus.SubmenusAreSound | nemu/tools/kconfig/menu.c:456-497 | End to end: whatever menu_finalize has put below a bool or tristate is n in the calculated values unless that symbol or its prompt dependency is not. |
| KconfigMenus.NothingIsMissed | nemu/tools/kconfig/menu.c:456-502 | In the finished tree, what follows a symbol that was read with nothing below it has no operand that demands the symbol and, if it mentions the symbol, not all operands of what the prompt asks for; tests of a bool for m aside. |
| KconfigMacro.EnterCosts | nemu/tools/kconfig/preprocess.c:260-274 | Each expansion of a variable uses up one of a bounded number, so expansion ends for every table and text. |
| KconfigMacro.ClauseIsBalanced | nemu/tools/kconfig/preprocess.c:469-487 | The text handed on as a clause has balanced parentheses and is followed by the one that closes it. |
| KconfigMacro.CloseIsFirst | nemu/tools/kconfig/preprocess.c:469-482 | The parenthesis found is the only one that can close the reference. |
| KconfigMacro.ClauseRestored | nemu/tools/kconfig/preprocess.c:384-399 | Joining the pieces with commas restores the clause. |
| KconfigMacro.PiecesAreBalanced | nemu/tools/kconfig/preprocess.c:384-399 | The pieces of a balanced clause are balanced. |
| KconfigMacro.SplitIsExact | nemu/tools/kconfig/preprocess.c:384-399 | Both together for every clause. |
| KconfigMacro.CountersOnlyStop | nemu/tools/kconfig/preprocess.c:251-277 | The expansion counters only ever stop an expansion: a result that is given is what the expansion means without counters. |
| KconfigMacro.Expander.ExpandString | nemu/tools/kconfig/preprocess.c:495-537 | The cursor loop gives the expansion of the text, and restores every counter unless there is an error. |
| KconfigMacro.Expander.ExpandDollar | nemu/tools/kconfig/preprocess.c:453-488 | The same for one reference, with the cursor after what was expanded. |
| KconfigMacro.Expander.FindClose | nemu/tools/kconfig/preprocess.c:469-482 | The scan finds the closing parenthesis or reports that there is none. |
| KconfigMacro.Expander.EvalClause | nemu/tools/kconfig/preprocess.c:346-439 | An argument number, otherwise variables, then built-in functions, then the environment; undefined with sixteen commas. |
| KconfigMacro.SplitCount | nemu/tools/kconfig/preprocess.c:384-399 | There is one piece more than commas outside parentheses. |
| KconfigMacro.OutsideExactly | nemu/tools/kconfig/preprocess.c:384-399 | The loop stores outside its array if and only if there are sixteen commas outside parentheses; with more it stops with an error before, with fewer the clause is called with its pieces. |
| KconfigMacro.SixteenCommas | nemu/tools/kconfig/preprocess.c:350 | A clause of sixteen commas is such an input. |
| KconfigMacro.Expander.SplitClause | nemu/tools/kconfig/preprocess.c:384-399 | With an array of sixteen places: the pieces, a store outside, or too many, by the number of commas outside parentheses. |
| KconfigMacro.Expander.ExpandPieces | nemu/tools/kconfig/preprocess.c:407-411 | The name and all arguments are expanded in order, and the first error ends it. |
| KconfigMacro.Expander.VariableExpand | nemu/tools/kconfig/preprocess.c:251-277 | The first variable of the name is expanded, simple ones as they are, with the checks on recursion; its counter returns to what it was. |
| KconfigMacroMeaning.TextIsItself | nemu/tools/kconfig/preprocess.c:506-531 | A text without references expands to itself, and what follows is expanded on its own. |
| KconfigMacroMeaning.ReferenceIs | nemu/tools/kconfig/preprocess.c:453-537 | A balanced text in parentheses after a dollar sign is replaced by what its clause gives. |
| KconfigMacroMeaning.LoneDollar | nemu/tools/kconfig/preprocess.c:460-464 | A dollar sign without a parenthesis stands for itself. |
| KconfigMacroMeaning.NumberIsArgument | nemu/tools/kconfig/preprocess.c:353-371 | A number up to that of the arguments stands for that argument, not expanded again. |
| KconfigMacroMeaning.WordsSplit | nemu/tools/kconfig/preprocess.c:384-399 | Words joined by commas are split into these words. |
| KconfigMacroMeaning.PiecesAreWhole | nemu/tools/kconfig/preprocess.c:384-399 | A clause is split at every comma outside parentheses: no piece has one. |
| KconfigMacroMeaning.ClauseCalls | nemu/tools/kconfig/preprocess.c:384-439 | A clause of up to sixteen words calls the first with the others as arguments, unless it is the number of an argument. |
| KconfigMacroMeaning.VariableIs | nemu/tools/kconfig/preprocess.c:251-277 | A simple variable gives its value as it is, a recursive one its value expanded with the arguments of the call. |
| KconfigMacroMeaning.RecursionFails | nemu/tools/kconfig/preprocess.c:260-268 | A variable that is met within itself without arguments, or too often with them, is an error. |
| KconfigMacroMeaning.OtherNames | nemu/tools/kconfig/preprocess.c:413-439 | A name that is no variable is a built-in function, otherwise, without arguments, an environment variable, otherwise nothing. |
| KconfigMacroMeaning.CallSubstitutes | nemu/tools/kconfig/preprocess.c:251-439 | A call of a variable with a reference to its first argument gives its value with the argument put in. |
| KconfigString.ReadQuoted | nemu/tools/kconfig/symbol.c:875-916 | Reading a quoted text back gives the text, whatever follows. |
| KconfigString.QuotedIsInjective | nemu/tools/kconfig/symbol.c:875-916 | Different texts are never written alike. |
| KconfigString.EscapedIs | nemu/tools/kconfig/symbol.c:898-911 | A quote or backslash is written with a backslash before it, any other character as it is. |
| KconfigString.UnescapedExactly | nemu/tools/kconfig/confdata.c:261-275 | A text reads as v if and only if it starts with v, some characters of it after a backslash and among these all quotes and backslashes, and a closing quote. |
| KconfigString.CountBytes | nemu/tools/kconfig/symbol.c:882-896 | The count is the length of the quoted text and its terminator. |
| KconfigString.Escape | nemu/tools/kconfig/symbol.c:875-916 | The buffer is filled exactly. |
| KconfigString.RemoveAt | nemu/tools/kconfig/confdata.c:269 | Moving the tail removes one character. |
| KconfigString.ReadInPlace | nemu/tools/kconfig/confdata.c:261-275 | Unescaping in the buffer reads what the quoted text means, and fails exactly if it is not a complete quoted text. |
| KconfigString.WriteAndRead | nemu/tools/kconfig/confdata.c:261-286 | Every text without a terminator is read back as it was. |
| Int64.ClzSI2 | abstract-machine/klib/src/int64.c:640-669 | The number of leading zeros of every word, with 32 for zero. |
| Int64.CtzSI2 | abstract-machine/klib/src/int64.c:675-709 | The number of trailing zeros of every word but zero. |
| Int64.ShiftedState | abstract-machine/klib/src/int64.c:614-618 | One shift of remainder and quotient keeps the division state, and the shifted remainder does not overflow. |
| Int64.SignTrick | abstract-machine/klib/src/int64.c:626 | The sign of d - r - 1 with wrap-around tells whether r is at least d, even for d above 2^63. |
| Int64.ShiftLeft | abstract-machine/klib/src/int64.c:614-618 | Shifting four words shifts the 128-bit number they hold. |
| Int64.SubtractIfFits | abstract-machine/klib/src/int64.c:626-628 | The branch-free subtraction subtracts exactly when it can, and the carry says so. |
| Int64.DivideLoop | abstract-machine/klib/src/int64.c:611-633 | From a split dividend the loop reaches quotient and remainder. |
| Int64.HugeDivisor | abstract-machine/klib/src/int64.c:579-587 | For a divisor above 2^63 the loop runs once. |
| Int64.DivideByHighWord | abstract-machine/klib/src/int64.c:460-521 | The divisions by a divisor with an empty low word. |
| Int64.DivideByLowWord | abstract-machine/klib/src/int64.c:524-572 | The divisions by a divisor with an empty high word. |
| Int64.DivideByBothWords | abstract-machine/klib/src/int64.c:573-603 | The divisions by a divisor without an empty word. |
| Int64.UDivModDI4 | abstract-machine/klib/src/int64.c:426-634 | For all a and b except b = 0: a = q * b + rem with rem below b, on every path. |
| Int64.DivDI3 | abstract-machine/klib/src/int64.c:369-379 | The signed quotient truncates toward zero, wrapped to 64 bits. |
| Int64.ModDI3 | abstract-machine/klib/src/int64.c:393-404 | The signed remainder, always exact. |
| Int64.QuotientFits | abstract-machine/klib/src/int64.c:369-379 | Wrapping changes the quotient if and only if the operands are the least number and -1. |
| Int64.DivModDI4 | abstract-machine/klib/src/int64.c:383-389 | Quotient and remainder; the remainder is exact even when the quotient wraps. |
| Truncation.TruncDivRem | abstract-machine/klib/src/int64.c:366-404 | Truncating division and its remainder are as section 6.5.5 of ISO C11 asks. |
| LongLong.AddSsaaaa | abstract-machine/am/src/riscv/npc/libgcc/longlong.h:1613-1621 | The sum of two double words up to one carry out of the high word. |
| LongLong.SubDdmmss | abstract-machine/am/src/riscv/npc/libgcc/longlong.h:1623-1631 | Their difference up to one borrow of the high word. |
| LongLong.EstimateBound | abstract-machine/am/src/riscv/npc/libgcc/longlong.h:1688-1689 | The estimate of a quotient digit is at most the base plus one. |
| LongLong.EstimateProduct | abstract-machine/am/src/riscv/npc/libgcc/longlong.h:1690 | So its product with the lower half of the divisor fits a word and is at most twice the divisor. |
| LongLong.Correct | abstract-machine/am/src/riscv/npc/libgcc/longlong.h:1692-1699 | Two corrections at most make a digit exact; the wrap-around test tells whether adding the divisor carried. |
| LongLong.DivideDigit | abstract-machine/am/src/riscv/npc/libgcc/longlong.h:1688-1699 | One digit and its remainder. |
| LongLong.UDivQrnnd | abstract-machine/am/src/riscv/npc/libgcc/longlong.h:1681-1716 | With the top bit of d set and n1 below d: q * d + r = n1 * W + n0 and r below d, for every word size. |
| LongLong.SumPartials | abstract-machine/am/src/riscv/npc/libgcc/longlong.h:1663-1669 | Only the second addition to the middle word can carry, and the carry goes to the right place. |
| LongLong.UMulPpmm | abstract-machine/am/src/riscv/npc/libgcc/longlong.h:1648-1670 | The exact product of two words as a double word. |
| LongLong.AddDouble | abstract-machine/am/src/riscv/npc/libgcc/multi3.c:60-68 | The carry of the loop is right and the high word does not overflow. |
| LongLong.MultiplyLow | abstract-machine/am/src/riscv/npc/libgcc/multi3.c:56-77 | The shift-add loop gives the product of the low words as a double word. |
| LongLong.Multi3 | abstract-machine/am/src/riscv/npc/libgcc/multi3.c:40-86 | The product of two double words modulo the double word. |
| DebugExpr.ClassifyIsClassified | nemu/src/monitor/sdb/expr.c:116-142 | No unary operator follows the end of an operand in what the token loop keeps. |
| DebugExpr.CheckParentheses | nemu/src/monitor/sdb/expr.c:154-165 | True exactly when the tokens are one parenthesised group. |
| DebugExpr.FindOp | nemu/src/monitor/sdb/expr.c:168-216 | The scan on positions finds the root operator of the tokens. |
| DebugExpr.RootOfTree | nemu/src/monitor/sdb/expr.c:168-216 | For every tree of the grammar the scan finds the operator at its root, or none. |
| DebugExpr.UnaryRootIsFirst | nemu/src/monitor/sdb/expr.c:297-308 | A unary root operator stands first, so that its left side is empty. |
| DebugExpr.ParseShow | nemu/src/monitor/sdb/expr.c:272-310 | Every tree parses back from its tokens. |
| DebugExpr.ParseSound | nemu/src/monitor/sdb/expr.c:272-310 | What is parsed derives from the grammar and has the given tokens. |
| DebugExpr.ParseExact | nemu/src/monitor/sdb/expr.c:272-310 | Splitting at root operators gives a tree if and only if it derives from the left-associative precedence grammar and has these tokens; so there is at most one. |
| DebugExpr.Eval | nemu/src/monitor/sdb/expr.c:272-310 | On positions of the token array: passes exactly when the tokens have a tree with a value, and returns it. |
| DebugExpr.ReadNumberIs | nemu/src/monitor/sdb/expr.c:223-228 | A literal is read as what it denotes, cut to a word, and as 0 after an upper-case prefix. |
| DebugExpr.ReadNumberExactly | nemu/src/monitor/sdb/expr.c:223-228 | It is read as what it denotes if and only if that fits a word and is 0 after an upper-case prefix. |
| DebugExpr.UpperPrefixIsMisread | nemu/src/monitor/sdb/expr.c:226 | 0X1F denotes 31 and is read as 0. |
| DebugExpr.KeepToken | nemu/src/monitor/sdb/expr.c:114-142 | One turn of the loop classifies one lexeme. |
| DebugExpr.MakeTokens | nemu/src/monitor/sdb/expr.c:98-151 | The array holds the classified lexemes. |
| DebugExpr.Expr | nemu/src/monitor/sdb/expr.c:313-321 | Passes if and only if the tokens derive from the grammar, all registers resolve and no divisor is 0; the value is that of the one tree. |
| DebugExpr.SpellClassifies | nemu/src/monitor/sdb/expr.c:129-139 | Typing a tree without telling unary from binary operators and classifying it gives its tokens. |
| DebugExpr.SpellParses | nemu/src/monitor/sdb/expr.c:98-310 | Every tree, typed, is classified and parsed back to itself. |
| DebugGrammar.GrammarIs | nemu/src/monitor/sdb/expr.c:168-216 | The trees that the precedence levels allow are those of a grammar with the operators written out: or, and, equality, relation, sum, product, prefix, primary, each associating to the left. |
| DebugGrammar.ParsesGrammar | nemu/src/monitor/sdb/expr.c:272-310 | Tokens parse as a tree if and only if it is of that grammar and has these tokens. |
| DebugGrammar.ArithmeticMeans | nemu/src/monitor/sdb/expr.c:249-251 | Sum, difference and product are those of the two sides modulo the word, in this order. |
| DebugGrammar.QuotientMeans | nemu/src/monitor/sdb/expr.c:252-258 | The quotient of the signed readings, truncated toward zero; none by 0; the least number by -1 aside. |
| DebugGrammar.ComparisonMeans | nemu/src/monitor/sdb/expr.c:261-266 | Exactly one of <, == and > gives 1, by the order of the unsigned words, and the other three are their complements. |
| DebugGrammar.ConnectiveMeans | nemu/src/monitor/sdb/expr.c:259-260 | Both sides are evaluated, and zero is false. |
| DebugGrammar.SidesNeeded | nemu/src/monitor/sdb/expr.c:303-309 | A binary operation has no value if one of its sides has none. |
| DebugGrammar.OperandMeans | nemu/src/monitor/sdb/expr.c:219-232 | A number stands for what it is read as, a register for its value, a group for what is in it. |
| DebugGrammar.DigitsAre | nemu/src/monitor/sdb/expr.c:223-228 | The digits of either case, and no other characters, have the values of their places. |
| DebugGrammar.CutIs | nemu/src/monitor/sdb/expr.c:223-228 | A number that fits 64 bits is cut to the word, and a larger one becomes the largest word. |
| DebugGrammar.PrefixMeans | nemu/src/monitor/sdb/expr.c:235-243 | Sign change modulo the word, plus sign and reading of memory. |
| DebugGrammar.SignsAre | nemu/src/monitor/sdb/expr.c:125-140 | A sign or star is unary at the start, after an operator and after an opening parenthesis, and binary after an operand. |
| PageEntry.IndexIs | abstract-machine/am/src/x86/qemu/vme.c:49-51 | The masks and shifts split an address as section 4.3 of Intel SDM Volume 3A does, and nothing is lost. |
| PageEntry.BaseIs | abstract-machine/am/src/x86/qemu/vme.c:53-55 | The base of an address or entry is its page. |
| PageEntry.EntryParts | abstract-machine/am/src/x86/qemu/vme.c:152 | Page, presence, write and user bit of an entry can be read back. |
| Paging.Mmu.PgAllocz | abstract-machine/am/src/x86/qemu/vme.c:40-47 | A free page, no longer free and all zero. |
| Paging.Mmu.PtWalk | abstract-machine/am/src/x86/qemu/vme.c:57-75 | The entry of an address; a missing table is allocated, and no address of any kind means anything else than before. |
| Paging.Mmu.SetEntry | abstract-machine/am/src/x86/qemu/vme.c:146-154 | Writing an entry changes what the addresses of its page mean and no other address. |
| Paging.Mmu.Map | abstract-machine/am/src/x86/qemu/vme.c:141-156 | Succeeds exactly on the stated conditions; afterwards the page means pa with the requested write bit, or nothing, and every other address what it meant. |
| Paging.Mmu.Teardown | abstract-machine/am/src/x86/qemu/vme.c:77-87 | The recursion frees what the recursive definition lists. |
| Paging.Mmu.TornSpace | abstract-machine/am/src/x86/qemu/vme.c:77-87 | That list is the pages of the address space, each once. |
| Paging.Mmu.Unprotect | abstract-machine/am/src/x86/qemu/vme.c:137-139 | Exactly the pages of the space are freed, each once. |
| Paging.Mmu.CopyArea | abstract-machine/am/src/x86/qemu/vme.c:124-129 | The entries of one kernel area are copied; the cursor that wraps at the end of the address space ends the loop. |
| Paging.Mmu.Protect | abstract-machine/am/src/x86/qemu/vme.c:117-135 | A new directory translates the kernel areas as the kernel's does and nothing else. |
| Paging.Mmu.MapIn | abstract-machine/am/src/x86/qemu/vme.c:141-156 | In a system of spaces: no other space and no kernel address changes its meaning, and pages move only from the allocator to this space. |
| Paging.Mmu.ProtectIn | abstract-machine/am/src/x86/qemu/vme.c:117-135 | A new space shares no table with the kernel or any other space. |
| Paging.Mmu.UnprotectIn | abstract-machine/am/src/x86/qemu/vme.c:137-139 | The pages freed are exactly those of the space, each once, and none is the kernel's or another space's. |
| Paging.Mmu.MapData | abstract-machine/am/src/x86/qemu/vme.c:141-156 | Mapping a page that belongs to a client keeps it so that user mode reaches pages of clients only, never a table or a free page. |
| Paging.Mmu.ProtectData | abstract-machine/am/src/x86/qemu/vme.c:117-135 | In a new space user mode reaches nothing. |
| Paging.Mmu.TakePage | abstract-machine/am/src/x86/qemu/vme.c:40-47 | A page given to a client is in no table, and no address of any space changes its meaning. |
| Paging.Mmu.UserStore | abstract-machine/am/src/x86/qemu/vme.c:141-156 | Whatever a store in user mode hits, it changes no translation of any space. |
| Paging.Mmu.UnprotectData | abstract-machine/am/src/x86/qemu/vme.c:137-139 | No page that user mode reaches, in this or any other space, is freed. |
| Paging.Mmu.DoStep | abstract-machine/am/src/x86/qemu/vme.c:117-156 | In any step of a client, pages that leave the allocator become tables of its space or pages of the client. |
| Paging.Mmu.UseSpace | abstract-machine/am/src/x86/qemu/vme.c:117-156 | From protect through any steps of a client, which takes, maps and unmaps pages and stores to them, to unprotect: the tables are freed, each once, no page of a client is, and all other spaces keep their meaning. |
| PagingInit.Boot.MapPage | abstract-machine/am/src/x86/qemu/vme.c:57-75 | One more page is mapped to itself; a directory or table is allocated if there is none. |
| PagingInit.Boot.MapArea | abstract-machine/am/src/x86/qemu/vme.c:102-106 | All pages of an area are mapped, and the cursor that wraps at the end of the address space ends the loop. |
| PagingInit.IdentityBuilt | abstract-machine/am/src/x86/qemu/vme.c:95-109 | The finished tables translate every address of the kernel areas to itself, writable and not for user mode, and no other address. |
| PagingInit.VmeInit | abstract-machine/am/src/x86/qemu/vme.c:89-109 | Succeeds exactly with 269 free pages or more; then the tables are such, the rest of the pages is still free, and the system of address spaces can start. |
| InstPattern.MaskTests | nemu/include/cpu/decode.h:42-44 | Masking a word gives the key exactly when every digit agrees with its bit. |
| InstPattern.ShiftedTests | nemu/include/cpu/decode.h:58-60 | Shifting out the trailing question marks changes no test. |
| InstPattern.PatternDecode | nemu/include/cpu/decode.h:31-61 | Fails exactly on another character or more than 63 characters; otherwise key, mask and shift are those of the digits, and no bit was lost. |
| InstPattern.InstPat | nemu/include/cpu/decode.h:91-98 | For every pattern and word the test passes exactly when every digit that is not a question mark agrees with its bit. |
| RiscvImm.RecoversI | nemu/src/isa/riscv32/inst.c:62 | Every offset of 12 bits is recovered from its encoding, as in section 2.3 of the RISC-V Instruction Set Manual Volume I. |
| RiscvImm.RecoversS | nemu/src/isa/riscv32/inst.c:63 | The same for the store format. |
| RiscvImm.RecoversU | nemu/src/isa/riscv32/inst.c:64 | Every upper immediate is recovered. |
| RiscvImm.RecoversB | nemu/src/isa/riscv32/inst.c:65-67 | Every even branch offset of 13 bits is recovered, with the shift at the branch sites. |
| RiscvImm.RecoversJ | nemu/src/isa/riscv32/inst.c:68-70 | Every even jump offset of 21 bits is recovered, with the shift at the jump site. |
| RiscvImm.ReencodesI | nemu/src/isa/riscv32/inst.c:62 | Every word is the encoding of the immediate decoded from it. |
| RiscvImm.ReencodesS | nemu/src/isa/riscv32/inst.c:63 | The same for the store format. |
| RiscvImm.ReencodesU | nemu/src/isa/riscv32/inst.c:64 | The same for upper immediates. |
| RiscvImm.ReencodesB | nemu/src/isa/riscv32/inst.c:65-67 | The same for branches. |
| RiscvImm.ReencodesJ | nemu/src/isa/riscv32/inst.c:68-70 | The same for jumps. |
| RiscvImm.AssembledShows | nemu/src/isa/riscv32/inst.c:76-89 | In every format the word for an instruction shows its registers in their places and its immediate. |
| RiscvImm.EveryWord | nemu/src/isa/riscv32/inst.c:76-89 | In every format every word is the word for some instruction. |
| RiscvImm.OperandsRead | nemu/src/isa/riscv32/inst.c:76-89 | For the word of an instruction the decoder gives the values of the registers it names and its immediate. |
| RiscvImm.DecodeOperand | nemu/src/isa/riscv32/inst.c:76-89 | So does the switch over the formats; what a format does not have keeps its value. |
| RiscvControl.CodeDecodes | nemu/src/isa/riscv32/inst.c:185-208 | The word of a branch, jal or jalr is found to be that one and no other. |
| RiscvControl.TransferHasCode | nemu/src/isa/riscv32/inst.c:185-208 | What is found has encodable operands and that word. |
| RiscvControl.KnownCodes | nemu/src/isa/riscv32/inst.c:185-208 | The words of one instruction of each kind, as section 2.5 and chapter 24 of the RISC-V Instruction Set Manual Volume I encode them. |
| RiscvControl.ConditionsMean | nemu/src/isa/riscv32/inst.c:197-203 | The conditions come in pairs of which exactly one holds, and of -1 and 1 the signed and the unsigned order differ. |
| RiscvControl.Hart.Taken | nemu/src/isa/riscv32/inst.c:197-203 | The six conditions, signed and unsigned. |
| RiscvControl.Hart.WriteReg | nemu/src/isa/riscv32/inst.c:249 | Register 0 stays 0. |
| RiscvControl.Hart.DecodeExec | nemu/src/isa/riscv32/inst.c:185-208 | Executing the word of a control transfer goes to the encoded offset if its condition holds and to the next instruction otherwise, writes the return address, and changes nothing else. |
| RiscvControl.CallReturns | nemu/src/isa/riscv32/inst.c:185-208 | A jump back to the address a call has left continues behind the call if and only if the call is at an even address. |
| RiscvControl.IndirectCallReturns | nemu/src/isa/riscv32/inst.c:185-208 | So it does if the call was made by jalr. |
| RiscvControl.OppositeBranches | nemu/src/isa/riscv32/inst.c:197-203 | Of two branches on opposite conditions one goes to the offset and the other to the next instruction, and neither writes a register. |
| RiscvControl.SignedIs | nemu/src/isa/riscv32/inst.c:199-200 | A word read as signed is the number from -2^31 to 2^31 - 1 that it is modulo 2^32. |

## Left out

- Choices (`sym_calc_choice`, `sym_check_choice_deps`), int and hex ranges, and the flags that record changes.
- `menu_finalize` on properties other than the prompt of the node, its additions to `dir_dep`, `rev_dep` and `implied`, and its warnings; the symbol table is taken with these fields filled in.
- `KconfigFinalize` stores dependencies in menus as values; `KconfigSuperset` proves the same passes on nodes.
- KconfigFinalize.PropagateAll: rewrites the condition of the node's prompt only; the other properties of its symbol and what they add to selected and implied symbols are left out.
- KconfigEvaluate.Table.ClearAllValid: does not recalculate the modules symbol, whose value is a parameter of the table.
- KconfigDups.EliminateDupsKeepsValue: asks for no tristate in the tree that is tested for equality with a constant, other than y, m and n, that denotes the value it has; the condition is exact for one join (KconfigJoin.JoinAndExactAt), while a whole tree may have such tests that never meet.
- KconfigSubmenu.GoesBelowSound: where the item does not depend on the symbol itself, asks for two-valued negation and for no number or text as a value; single pairs of expressions outside that condition can still be decided rightly.
- KconfigTaken.GoesBelowExactly: asks that no bool is tested for m; such a test becomes y or n in the forms that are compared.
- KconfigTaken.ConjunctsAreTaken: asks that the two forms have nothing to simplify; KconfigTaken.JoinedOperandIsRefused shows that some such condition is needed, KconfigTaken.GoesBelowExactly needs none.
- `expr_free`: nodes that are no longer used stay allocated in the model.
- List and range expressions, and `expr_trans_compare` with m, which no caller uses.
- The text `conf_write` prints, visibility of menus and the files it writes; the walk only records the nodes visited.
- `expand_one_token` and the assignment of variables in `preprocess.c`, caching of environment variables, and what built-in functions compute.
- KconfigMacro.Expander.EvalClause: says nothing of what happens after the store outside the array with sixteen commas.
- KconfigString.ReadInPlace: does not model the check that an int or hex value is a number, which follows the unescaping.
- The regular expressions of the debugger: tokens start as lexemes. Lexemes of the form of a name are excluded.
- Int64.DivDI3: division of the least number by -1 and the signed operations of the debugger on it, which the language leaves undefined, are modelled as wrapping.
- Int64.UDivModDI4: division by zero, which the source passes on to the machine's division, is excluded.
- The 64-bit page tables, and the control registers that `vme_init` sets.
- Paging.Mmu.UseSpace: a client does not give pages back to the allocator.
- `pattern_decode_hex`, the instruction bodies other than branches, `jal` and `jalr`, and the rest of the table of patterns; `RiscvControl` tests words by mask and key written out.
- `__muluw3` of targets without a multiplier: products of words are taken as the language defines them.
- Devices, the other emulator back ends and the differential tests.
