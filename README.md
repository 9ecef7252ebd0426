# Finite automata and LL(1) grammars, modelled in Dafny

This project models two small teaching libraries.

The first works on finite automata (`p1/`). It covers:
- the `FiniteAutomaton` data model, which is name-keyed and checked at construction;
- lambda-closures;
- the subset-construction determinizer (`to_deterministic`), with its `empty` sink state;
- the partition-refinement minimizer (`to_minimized`);
- the regular-expression compiler (infix to reverse Polish notation, then Thompson-style builders over renamed copies);
- the step-wise evaluator;
- the helpers of `utils.py`: the determinism check, the isomorphism check of deterministic automata, and the text writer.

The second is the LL(1) grammar core (`p2/src/grammar.py`). It covers:
- the checks of the `Grammar` constructor;
- the FIRST-set fixpoint `precompute_first` and `compute_first`;
- the `LL1Table` with `add_cell`;
- the table-driven parser `analyze`;
- `ParseTree` equality.

**How the Python is modelled.**
- States are values (`State(name, isFinal, transitions)`). Python's `State` compares and hashes by name, so a set of states is a `set<string>` of names.
- Exceptions become `Result`/`Outcome` values that name the error.
- Python set iteration order and `set.pop()` become an arbitrary choice (`:|`), so every property is proved for every order.
- Loops that update variables are methods with `while` loops. Each is proved against a specification function or predicate, and lemmas state what those mean: least fixpoints, closures, bisimulations, round trips.
- `LL1Table` and the evaluator are classes whose fields the methods update.

Files:
- `names.dfy`: string order, the least name of a set, sorted names, `join` and `split`.
- `automaton.dfy`: the data model.
- `closures.dfy`: lambda-closures.
- `determinize.dfy`: `to_deterministic`.
- `minimize.dfy`: `to_minimized`.
- `re_parser.dfy`: the regular-expression compiler.
- `evaluator.dfy`: the evaluator.
- `utils.dfy`: `is_deterministic`, the isomorphism check and `write`.
- `grammar.dfy`: the LL(1) core.

## Model

| member | source | states |
|---|---|---|
| Automata.NewAutomaton | p1/automata/automaton.py:118-139 | Construction succeeds iff the names are distinct and every target is a state name. A repeated name is reported first, as `DuplicateStateName`, and an undefined target otherwise, as `UndefinedTarget`. |
| Automata.NamesCardinality | p1/automata/automaton.py:125 | `len(set(states)) == len(states)` holds exactly when no two states share a name. |
| Automata.Name2State | p1/automata/automaton.py:138 | `name2state` has exactly the state names as keys and maps each name to its state. |
| Automata.AddTransitions | p1/automata/automaton.py:52-57 | Name and finality are unchanged. The new transition list holds, as a set, exactly the old transitions plus the added ones, with no repeats. |
| Automata.Alphabet | p1/automata/automaton.py:345-358 | Lambda (`None` or `""`) is never a symbol of the alphabet. |
| Automata.NameOfStatesSetInjective | p1/automata/automaton.py:407-415 | Two non-empty sets get the same joined name only if they are equal, when no name holds a vertical bar. |
| Automata.NameOfStatesSetSplits | p1/automata/automaton.py:407-415 | Splitting the joined name of a non-empty set at the vertical bar gives its names in ascending order. |
| StateNames.Smallest | p1/automata/automaton.py:494-500 | The first name after `names.sort()` is a member of the block and is below every member. |
| StateNames.SortedNames | p1/automata/automaton.py:412-414 | `names.sort()` lists every member exactly once, in strictly ascending order. |
| StateNames.SplitJoin | p1/automata/automaton.py:415 | Joining with a vertical bar and splitting again returns the pieces, when no piece holds the separator. |
| StateNames.SortedUnique | p1/automata/automaton.py:412-414 | Two ascending, duplicate-free lists with the same members are equal. |
| Closures.ClosureOfState | p1/automata/automaton.py:368-387 | The breadth-first expansion of one state gives its lambda-closure: the least lambda-closed set holding the state. |
| Closures.ComputeClosures | p1/automata/automaton.py:360-389 | The dictionary has one entry per state, and each entry is that state's lambda-closure. |
| Closures.ClosureWithinStates | p1/automata/automaton.py:360-389 | Every closure contains only states of the automaton. |
| Closures.ClosureOfSetIsLeast | p1/automata/automaton.py:391-404 | The union of the members' closures contains the set, is lambda-closed, and lies below every lambda-closed superset. |
| Closures.ClosureOfSetIdempotent | p1/automata/automaton.py:391-404 | Closing a set that is already closed changes nothing. |
| Closures.NextSetIsLeast | p1/automata/automaton.py:216-236 | The successor set on a symbol is the least lambda-closed set holding every target of that symbol. |
| Closures.NextSetOfEmpty | p1/automata/automaton.py:216-236 | The empty set of states has the empty successor on every symbol. |
| Determinizer.Enumerate | p1/automata/automaton.py:207 | Iterating over the alphabet lists each symbol exactly once. |
| Determinizer.ExpandSet | p1/automata/automaton.py:189-214 | The row recorded for a set maps each alphabet symbol to the set's successor on that symbol. |
| Determinizer.DictToTransitions | p1/automata/automaton.py:417-433 | One transition per entry of the row, labelled with the symbol and pointing at the successor set's name. |
| Determinizer.ChooseSinkName | p1/automata/automaton.py:456-459 | The sink is named `'empty'` with `'_'` prefixed until the name is not the name of an expanded set. |
| Determinizer.SetNames | p1/automata/automaton.py:451-454 | Every expanded set is named by `name_of_states_set`, and the values of the dictionary are exactly those names. |
| Determinizer.SinkState | p1/automata/automaton.py:456-464 | The sink is non-final and loops to itself on every symbol of the alphabet. |
| Determinizer.StateForSet | p1/automata/automaton.py:467-473 | The state of a set is named after it, is final iff some member is final, and has one transition per symbol to the state of the successor. |
| Determinizer.StatesFromTable | p1/automata/automaton.py:436-478 | There is one state per expanded set, in expansion order. The sink state comes last, and only when the empty set was reached. |
| Determinizer.RunWorklist | p1/automata/automaton.py:158-170 | The `while open_set` loop ends having expanded, once each, the closure of the initial state and every non-empty set reachable from it. Every successor of an expanded set is empty or expanded. The flag is raised iff the empty set is some successor. |
| Determinizer.WorklistDone | p1/automata/automaton.py:158-170 | When the open set is empty, the start set is the first expanded set, and every successor of an expanded set is empty or itself expanded. |
| Determinizer.ToDeterministic | p1/automata/automaton.py:148-187 | An automaton without states is an error. Otherwise the first expanded set is the closure of the initial state, and the output is the assembled list of states passed to the constructor. Every output state is total over the alphabet. When no name holds a vertical bar, construction succeeds. |
| Determinizer.AssembledTotal | p1/automata/automaton.py:204-214 | Every built state, the sink included, has exactly one transition per alphabet symbol and no lambda transition. |
| Determinizer.AssembledDistinct | p1/automata/automaton.py:451-465 | The built states have distinct names when no original name holds a vertical bar. |
| Determinizer.AssembledTargets | p1/automata/automaton.py:467-476 | Every transition of the built states leads to a built state. |
| Evaluation.FiniteAutomatonEvaluator.constructor | p1/g1401_cuesta_zamanillo/automaton_evaluator.py:24-34 | The current states start as the lambda-closure of the initial state. |
| Evaluation.NewEvaluator | p1/g1401_cuesta_zamanillo/automaton_evaluator.py:24-34 | An automaton without states fails with the `IndexError` of `states[0]` (`NoInitialState`). Otherwise a fresh evaluator whose current states are the lambda-closure of the initial state. |
| Evaluation.CollectTargets | p1/g1401_cuesta_zamanillo/automaton_evaluator.py:48-55 | The loop collects exactly the targets of the current states' transitions labelled with the symbol. |
| Evaluation.CompleteLambdas | p1/g1401_cuesta_zamanillo/automaton_evaluator.py:63-75 | The completed set is the input set together with the union of its members' closures. |
| Evaluation.CompleteLambdasIsClosure | p1/g1401_cuesta_zamanillo/automaton_evaluator.py:63-75 | Completion only adds states. The result is lambda-closed and lies below every lambda-closed superset. |
| Evaluation.FiniteAutomatonEvaluator.ProcessSymbol | p1/g1401_cuesta_zamanillo/automaton_evaluator.py:37-58 | A symbol outside the alphabet is `InvalidSymbol`, and the current states are unchanged. Otherwise the current states become the closure of the symbol's targets. |
| Evaluation.RunOfEmpty | p1/g1401_cuesta_zamanillo/automaton_evaluator.py:48-58 | An empty set of current states stays empty on every string. |
| Evaluation.RunAppend | p1/g1401_cuesta_zamanillo/automaton_evaluator.py:77-86 | Processing `u` and then `v` is processing `u + v`. |
| Evaluation.RunClosed | p1/g1401_cuesta_zamanillo/automaton_evaluator.py:48-58 | Starting from a lambda-closed set of states, the current states stay a lambda-closed set of states. |
| Evaluation.ValidPrefix | p1/g1401_cuesta_zamanillo/automaton_evaluator.py:85-86 | The processed prefix is exactly the characters before the first one outside the alphabet. |
| Evaluation.FiniteAutomatonEvaluator.ProcessString | p1/g1401_cuesta_zamanillo/automaton_evaluator.py:77-86 | Symbols are applied in order up to the first invalid one, whose error is returned. |
| Evaluation.FiniteAutomatonEvaluator.IsAccepting | p1/g1401_cuesta_zamanillo/automaton_evaluator.py:90-92 | True iff some current state is final. |
| Evaluation.FiniteAutomatonEvaluator.Accepts | p1/g1401_cuesta_zamanillo/automaton_evaluator.py:95-111 | The current states are restored on every path. The answer is true iff every symbol is in the alphabet and the states reached hold a final one. |
| AutomataUtils.IsDeterministic | p1/automata/utils.py:127-152 | True iff there is no `None` transition and no state has two transitions on one symbol. |
| AutomataUtils.OriginClash | p1/automata/utils.py:146-148 | A `(state, symbol)` pair seen before means the automaton is not deterministic. |
| AutomataUtils.TotalIsDeterministic | p1/automata/utils.py:127-152 | An automaton total over an alphabet, as `to_deterministic` builds it, passes `is_deterministic`. |
| AutomataUtils.RowMap | p1/automata/utils.py:177-178 | The row of a state maps each of its symbols to that transition's target. |
| AutomataUtils.TransitionMap | p1/automata/utils.py:172-186 | The transition map maps every state name to its row. |
| AutomataUtils.PushSuccessors | p1/automata/utils.py:200-210 | Fails iff some symbol of the first state is missing from the second. Otherwise it queues the pair of successors of every symbol and keeps the earlier queue. |
| AutomataUtils.Refuted | p1/automata/utils.py:190-208 | A popped pair that differs in finality, contradicts the map, or differs in symbols rules out every initial-preserving homomorphism. |
| AutomataUtils.ExploredDone | p1/automata/utils.py:188-212 | When the queue is empty, the map sends the initial state to the initial state, and it commutes with finality and transitions. |
| AutomataUtils.Explore | p1/automata/utils.py:169-212 | A returned map is such a homomorphism. `None` means that none exists. |
| AutomataUtils.DeterministicAutomataIsomorphism | p1/automata/utils.py:154-212 | `ValueError` iff either automaton is not deterministic. Different sizes, or different transition counts at one index, give `None`. A returned map sends initial to initial, preserves finality, and commutes with every transition. `None` after the shape checks means that no such map exists. |
| AutomataUtils.Write | p1/automata/utils.py:67-83 | The text starts with the header line `Automaton:`. |
| AutomataUtils.WriteLineCount | p1/automata/utils.py:67-83 | With no line break inside a name or symbol, the text has 2 + states + transitions lines: the header, one per state, the blank line and one per transition. |
| RegexCompiler.PopWhile | p1/automata/re_parser.py:25-37 | The popping loops move operators from the stack top to the output, as the specification function `Unstack` does. |
| RegexCompiler.ReToRpn | p1/automata/re_parser.py:9-45 | The loop computes `Rpn`, the output followed by the flushed stack, or the `IndexError` of a `)` without a matching `(`. |
| RegexCompiler.UnstackMoves | p1/automata/re_parser.py:25-32 | A `+` pops every pending operator down to the nearest `(`, and a `.` pops only pending `.` operators. What stays is a prefix of the stack whose top the mode does not pop. |
| RegexCompiler.UnstackMultiset | p1/automata/re_parser.py:25-43 | Popping moves characters from the stack to the output and loses none. |
| RegexCompiler.ShuntTracks | p1/automata/re_parser.py:24-40 | The loop fails iff some prefix closes more parentheses than it opens. |
| RegexCompiler.RpnMalformed | p1/automata/re_parser.py:35-38 | `_re_to_rpn` raises exactly when some prefix closes a parenthesis that was never opened. |
| RegexCompiler.RpnContents | p1/automata/re_parser.py:24-45 | The output keeps every operand in input order and every `+` and `.`. It has no `)`, and it keeps one `(` per parenthesis left open. |
| RegexCompiler.NatNameInjective | p1/automata/re_parser.py:85 | `str(m) == str(n)` only when `m == n`. |
| RegexCompiler.DecimalRoundTrip | p1/automata/re_parser.py:85 | Reading back the numeral `str(n)` gives `n`. |
| RegexCompiler.StateDict | p1/automata/re_parser.py:82-86 | `state_dict` sends the k-th state's name to `str(index + k)`, and the returned index is `index + n`. |
| RegexCompiler.RetargetLoop | p1/automata/re_parser.py:90-91 | Every transition keeps its symbol and has its target sent through the dictionary. |
| RegexCompiler.RenameStates | p1/automata/re_parser.py:76-93 | The states become the renamed copy, and the returned index is `index + n`. |
| RegexCompiler.Renamed | p1/automata/re_parser.py:76-93 | The k-th state is named `str(index + k)` and keeps its finality. The names are distinct and every target is one of them. |
| RegexCompiler.EmptyAutomaton | p1/automata/re_parser.py:57-72 | A valid automaton with one state and no final state. |
| RegexCompiler.LambdaAutomaton | p1/automata/re_parser.py:106-121 | A valid automaton with one state and an empty alphabet. |
| RegexCompiler.SymbolAutomaton | p1/automata/re_parser.py:124-145 | Reading the text fails iff the symbol is whitespace. Otherwise the result is a valid automaton whose alphabet is exactly the symbol. |
| RegexCompiler.LinkFinals | p1/automata/re_parser.py:170-171 | Each final state gains a lambda transition to the new state, and no other state changes. |
| RegexCompiler.Star | p1/automata/re_parser.py:148-176 | Fails iff the automaton has no states. Otherwise the states are the renamed copy plus a new final state `str(n)`. Every final state and the initial state get a lambda transition to `str(n)`, which has a lambda transition back to `0`. The result is valid. |
| RegexCompiler.DemoteFinals | p1/automata/re_parser.py:236-240 | Final states become non-final, with a lambda transition to the second copy's initial state. This fails only when there is no second state to point at. |
| RegexCompiler.Concat | p1/automata/re_parser.py:211-242 | Fails iff the second automaton has no states and the first has a final state. Otherwise there are n1+n2 valid states: the first copy demoted and the second copy unchanged. |
| RegexCompiler.Union | p1/automata/re_parser.py:178-209 | Fails, with an undefined target, iff the second automaton has no states. Otherwise a new non-final `0` has lambda transitions to `1` and `str(1 + n1)`, followed by the two renamed copies: 1+n1+n2 distinct names. |
| RegexCompiler.UnionMissing | p1/automata/re_parser.py:204-209 | With no second automaton, the new initial state points at a name that is not a state. |
| RegexCompiler.StarStep | p1/automata/re_parser.py:266-268 | The `*` branch builds the star of the automaton for the top expression. |
| RegexCompiler.BinaryStep | p1/automata/re_parser.py:269-276 | The `+` and `.` branches build the union or the concatenation, with the first popped automaton as the right operand. |
| RegexCompiler.CreateAutomaton | p1/automata/re_parser.py:244-282 | Succeeds iff the reverse Polish string parses into an expression: the empty regex gives the empty-language automaton, and an operator short of operands or an empty stack is an error. The result is the Thompson automaton of that expression. |
| Minimizer.FirstTarget | p1/automata/automaton.py:286-294 | The target of a transition on the symbol when one exists. `None` iff no transition carries the symbol. |
| Minimizer.FirstTargetIsFirst | p1/automata/automaton.py:291-293 | The chosen transition is the first one on that symbol. |
| Minimizer.TransitionFunction | p1/automata/automaton.py:286-294 | Returns the first transition's target, and raises `DFAError` iff no transition carries the symbol. |
| Minimizer.GetEquivalenceClass | p1/automata/automaton.py:481-491 | Returns a block holding the state iff one exists, and `PartitionError` otherwise. |
| Minimizer.Distinguishable | p1/automata/automaton.py:296-313 | `False` iff on every symbol both states have a transition into the same block. `True` names a distinguishing symbol. An error arises only from a missing transition. |
| Minimizer.EquivalentTo | p1/automata/automaton.py:266-273 | The new class holds exactly the remaining states equivalent to the current state, itself included. |
| Minimizer.SplitBlock | p1/automata/automaton.py:260-279 | One old block splits into non-empty classes. Two of its states share a class iff they are equivalent. |
| Minimizer.RefineRound | p1/automata/automaton.py:256-279 | One round keeps two states together iff they shared a block and agree on every symbol. It succeeds iff every state has all its transitions. |
| Minimizer.RoundRefines | p1/automata/automaton.py:259-279 | Each round's blocks lie inside the previous round's blocks. |
| Minimizer.RoundMeasure | p1/automata/automaton.py:255-257 | A round either changes nothing, or puts fewer pairs together, or drops the empty block, so the loop terminates. |
| Minimizer.FinalitySplit | p1/automata/automaton.py:248-252 | The initial partition `{non-final, final}` covers the accessible states without overlap and respects finality. |
| Minimizer.AccessibleStates | p1/automata/automaton.py:315-329 | With no states it fails. Otherwise it lists, once each, exactly the states reachable from `states[0]`: the least successor-closed set holding it. |
| Minimizer.ExploreStep | p1/automata/automaton.py:319-328 | One pop of the worklist keeps everything listed reachable and every successor of a listed state pending or listed. |
| Minimizer.DefinedIffComplete | p1/automata/automaton.py:286-294 | Over the accessible states, every symbol leads into the partition iff every state has a transition for every symbol. |
| Minimizer.RefinePartition | p1/automata/automaton.py:246-279 | Succeeds iff every accessible state has a transition on every symbol, and fails with `DFAError` otherwise. The result is a partition of the accessible states that respects finality and is a fixpoint of a round. It contains every bisimulation, so it is the coarsest one. |
| Minimizer.BisimulationInitial | p1/automata/automaton.py:248-252 | The split by finality keeps together every pair that a bisimulation relates. |
| Minimizer.BisimulationRound | p1/automata/automaton.py:259-279 | A round never separates a pair that a bisimulation relates. |
| Minimizer.FixpointBisimulation | p1/automata/automaton.py:255 | At the fixpoint, "sharing a block" is a bisimulation. |
| Minimizer.FixpointCongruence | p1/automata/automaton.py:255 | At the fixpoint, states sharing a block agree on every symbol. |
| Minimizer.ClassTransitions | p1/automata/automaton.py:516-527 | Every transition of the representative keeps its symbol and is redirected to the name of its target's block. |
| Minimizer.StatesFromPartition | p1/automata/automaton.py:503-537 | One state per block, in any order except that the initial state's block comes first. Each state is named by its block's smallest name, is final as its representative is, and has the representative's transitions with redirected targets. |
| Minimizer.ToMinimized | p1/automata/automaton.py:238-284 | An automaton without states is an error. Otherwise the result exists iff every accessible state is complete over the accessible alphabet, and is `DFAError` otherwise. The result is a valid automaton built from the coarsest bisimulation of the accessible states. |
| Minimizer.QuotientNamesDistinct | p1/automata/automaton.py:494-500 | The states of different blocks get different names. |
| Minimizer.QuotientTargets | p1/automata/automaton.py:516-527 | Every redirected target is the name of a quotient state. |
| Minimizer.QuotientStep | p1/automata/automaton.py:503-537 | The quotient state of an accessible state is final as that state is. On each symbol it moves to the block of that state's successor. |
| Minimizer.QuotientNames | p1/automata/automaton.py:529-533 | The first quotient state is named after the block of the initial state, and every block has a quotient state. |
| Grammars.CheckEntries | p2/src/grammar.py:51-64 | No error iff every entry has rules over the grammar's symbols. Otherwise the first offending entry, in dictionary order, is `NoRules` when empty and `InvalidSymbol` otherwise. |
| Grammars.CheckGrammar | p2/src/grammar.py:35-64 | No error iff the grammar is well formed. The errors are overlap, then axiom, then keys, then entries, each iff the earlier checks pass. |
| Grammars.FirstOfLambda | p2/src/grammar.py:110-119 | `""` is in the FIRST set of a string iff every symbol is a non-terminal whose FIRST set holds `""`. |
| Grammars.FirstOfMember | p2/src/grammar.py:110-119 | A terminal is in the FIRST set of a string iff it is reached from some symbol past a nullable prefix. |
| Grammars.FirstOfMonotone | p2/src/grammar.py:110-119 | Larger FIRST sets of non-terminals give larger FIRST sets of strings. |
| Grammars.InitialBelowClosed | p2/src/grammar.py:91-97 | The starting sets lie below every closed FIRST dictionary. |
| Grammars.NtProds | p2/src/grammar.py:100-105 | `ntprods` holds rules of the grammar that begin with a non-terminal. |
| Grammars.FirstRound | p2/src/grammar.py:122-124 | One pass over `ntprods`, in any order, only grows the sets and stays below every closed dictionary above its start. When nothing changes, every rule of `ntprods` is satisfied. |
| Grammars.MissingShrinks | p2/src/grammar.py:121-124 | Growing the sets leaves fewer (non-terminal, symbol) pairs to add, so the loop terminates even on left recursion. |
| Grammars.PrecomputeFirst | p2/src/grammar.py:82-126 | The result is the least dictionary closed under every rule, keyed by the non-terminals, holding only terminals and `""`. |
| Grammars.FirstEquation | p2/src/grammar.py:82-126 | The FIRST set of a non-terminal is the union of the FIRST sets of its rules. |
| Grammars.NewGrammar | p2/src/grammar.py:28-71 | An error iff a check fails, and then the first failing check's error. Otherwise the fields are the arguments and `first` is the FIRST dictionary. |
| Grammars.ComputeFirstNonTerminal | p2/src/grammar.py:168-178 | A set iff the symbol is a non-terminal, and that set is exactly the union of the FIRST sets of its rules. |
| Grammars.ComputeFirst | p2/src/grammar.py:129-166 | `ValueError` iff a symbol is outside the grammar. `""` gives `{""}`. Otherwise the result is the FIRST set of the sentence. |
| Grammars.TreeEq | p2/src/grammar.py:363-370 | `__eq__` holds iff the two trees are equal. |
| Grammars.LL1Table.constructor | p2/src/grammar.py:232-246 | The rows are the non-terminals, the columns the terminals, and every cell is empty. |
| Grammars.NewLL1Table | p2/src/grammar.py:232-246 | `ValueError` iff the terminals and non-terminals overlap. Otherwise a table with all cells empty. |
| Grammars.LL1Table.AddCell | p2/src/grammar.py:256-287 | Unknown row, unknown column, invalid body and filled cell fail in that order, leaving the cells unchanged. It succeeds iff the row and column exist, the body is over the symbols and the cell is empty, and then only that one cell is filled. |
| Grammars.Run | p2/src/grammar.py:306-341 | The loop of `analyze` from a stack and remaining input, step by step; acceptance yields `ParseTree("")`. |
| Grammars.RunFuel | p2/src/grammar.py:306-341 | An outcome reached within a bound does not change with a larger bound. |
| Grammars.RunSound | p2/src/grammar.py:306-341 | When every filled cell holds a rule of its row, an accepted input is derived from the stack by leftmost rule applications. |
| Grammars.LL1Table.Analyze | p2/src/grammar.py:289-341 | A symbol that is not a terminal is a `SyntaxError`. Otherwise the result is `Run` from the stack `[start, "$"]`. |

## Left out

- `AutomataFormat.read` is not part of this model. The regex builders construct their fixed automata directly. The one way their text can fail to parse is a whitespace symbol, and that is modelled as `FormatParseError`.
- `write_dot`, `__repr__`, `__hash__` and the `print` calls are output only.
- The stub evaluator `p1/automata/automaton_evaluator.py` is not part of this model; the implemented copy under `p1/g1401_cuesta_zamanillo/` is.
- `compute_follow`, `get_ll1_table` and `is_ll1` have no bodies in the source.
- `ParseTree.add_children` is not part of this model. `__eq__` against a non-`ParseTree` returns `NotImplemented`; this model only compares trees.
- `REParser.state_counter` is reset but never read.
- Python set and dictionary iteration orders are arbitrary choices in the model. Properties are proved for every order. Where the source's output order follows set order (the states of `to_minimized` after the first, the rows of `to_deterministic`), the model fixes no order either.
- The `productions` dictionary is given as a sequence of its entries in insertion order, because the constructor reports the first offending entry in that order.
- Grammars.LL1Table.Analyze: the loop is bounded by a `fuel` argument and returns `OutOfFuel` when the bound is hit. The source loops forever on a table whose non-terminal cells cycle without consuming input.
- Grammars.RunSound: only soundness is proved. An input derived from the grammar is not shown to be accepted, because the table is not required to be the grammar's LL(1) table.
- Grammars.Run: the parse tree is always `ParseTree("")`, as in the source; no tree is built.
- Minimizer.ToMinimized: the quotient is proved to come from the coarsest bisimulation, and one step of its transitions is related to the original (`QuotientStep`). Equality of the accepted languages is not stated.
- RegexCompiler.CreateAutomaton: the automata are proved to have the exact Thompson shapes. Equality of their languages with the regular expression is not stated.
- Determinizer.ToDeterministic: totality, naming, finality and the sink are proved. Equality of the accepted languages is not stated.
- AutomataUtils.DeterministicAutomataIsomorphism: the returned map is proved to be a homomorphism. It is not proved to be injective, because the source does not check that.
- Aliasing of mutable Python objects is not modelled. Each builder works on deep copies, so values are used throughout.
