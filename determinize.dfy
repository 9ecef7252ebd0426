/** Subset construction: `FiniteAutomaton.to_deterministic`, its helpers
    `_to_det_expand_set` and `_to_det_get_next_set`, and the output assembly
    `utils.states_from_in_construction_automaton` / `utils.dict_to_transitions`
    of `p1/automata/automaton.py`.
 */
module Determinizer {
  import opened Automata
  import opened Closures

  /** Every subset of `u`: the finite universe the worklist draws from. */
  ghost function Subsets(u: set<string>): set<set<string>>
  {
    set s: set<string> | s <= u
  }

  /** The row `in_construction_automaton[s]` receives: one successor set per symbol. */
  function Row(a: FiniteAutomaton, cl: map<string, set<string>>, alphabet: set<string>, s: set<string>): map<string, set<string>>
  {
    map c | c in alphabet :: NextSet(a, cl, s, c)
  }

  /** The entry of `s`, if any, is its row.  (Quantified over `s`, this is
      instantiated only where `RowIs` is mentioned.) */
  ghost predicate RowIs(a: FiniteAutomaton, cl: map<string, set<string>>, alphabet: set<string>,
                        table: map<set<string>, map<string, set<string>>>, s: set<string>)
  {
    s in table ==> table[s] == Row(a, cl, alphabet, s)
  }

  /** `for symbol in alphabet` over a set: some enumeration of it. */
  method Enumerate(s: set<string>) returns (xs: seq<string>)
    ensures forall x :: x in xs <==> x in s
    ensures NoDuplicates(xs)
    ensures |xs| == |s|
  {
    xs := [];
    var left := s;
    while left != {}
      invariant left <= s
      invariant forall x :: x in xs <==> x in s - left
      invariant NoDuplicates(xs)
      invariant |xs| + |left| == |s|
      decreases left
    {
      var x :| x in left;
      xs := xs + [x];
      left := left - {x};
    }
  }

  /** `_to_det_expand_set`: the successor of `current` on every symbol. */
  method ExpandSet(a: FiniteAutomaton, cl: map<string, set<string>>, alphabet: set<string>, current: set<string>)
    returns (row: map<string, set<string>>)
    ensures row == Row(a, cl, alphabet, current)
  {
    row := map[];
    var left := alphabet;
    while left != {}
      invariant left <= alphabet
      invariant row.Keys == alphabet - left
      invariant forall c :: c in row ==> row[c] == NextSet(a, cl, current, c)
      decreases left
    {
      var c :| c in left;
      row := row[c := NextSet(a, cl, current, c)];
      left := left - {c};
    }
  }

  /** The name a transition to the set `s` receives. */
  function TargetName(s: set<string>, sink: string): string
  {
    if s == {} then sink else NameOfStatesSet(s)
  }

  function Underscores(k: nat): (r: string)
    ensures |r| == k && forall i :: 0 <= i < k ==> r[i] == '_'
  {
    seq(k, _ => '_')
  }

  /** `'empty'` with `'_'` prefixed until it is no longer taken. */
  ghost predicate IsSinkName(sink: string, taken: set<string>)
  {
    && sink !in taken
    && exists k: nat :: sink == Underscores(k) + "empty"
         && forall j: nat :: j < k ==> Underscores(j) + "empty" in taken
  }

  /** The transitions of the deterministic state for `s`: one per symbol,
      to the state of its successor set. */
  ghost predicate DetRow(row: map<string, set<string>>, sink: string, ts: seq<Transition>)
  {
    && NoDuplicates(ts)
    && (forall t :: t in ts ==> t.symbol.Some? && t.symbol.value in row
                                && t.target == TargetName(row[t.symbol.value], sink))
    && (forall c :: c in row ==> Transition(Some(c), TargetName(row[c], sink)) in ts)
  }

  /** The sink's transitions: a loop on every symbol. */
  ghost predicate SinkRow(alphabet: set<string>, sink: string, ts: seq<Transition>)
  {
    && NoDuplicates(ts)
    && (forall t :: t in ts ==> t.symbol.Some? && t.symbol.value in alphabet && t.target == sink)
    && (forall c :: c in alphabet ==> Transition(Some(c), sink) in ts)
  }

  /** Some expanded set has an empty successor, so a sink is needed. */
  ghost predicate ReachesEmpty(a: FiniteAutomaton, cl: map<string, set<string>>, alphabet: set<string>, order: seq<set<string>>)
  {
    exists k, c :: 0 <= k < |order| && c in alphabet && NextSet(a, cl, order[k], c) == {}
  }

  /** The `k`-th built state is the state of the `k`-th expanded set. */
  ghost predicate BuiltAt(a: FiniteAutomaton, cl: map<string, set<string>>, alphabet: set<string>,
                          order: seq<set<string>>, states: seq<State>, sink: string, k: int)
  {
    0 <= k < |order| && k < |states| && StateOfSet(a, order[k], Row(a, cl, alphabet, order[k]), sink, states[k])
  }

  /** The successor of `s` on `c` is empty or one of the sets of `order`. */
  ghost predicate SuccessorListed(a: FiniteAutomaton, cl: map<string, set<string>>, alphabet: set<string>,
                                  order: seq<set<string>>, s: set<string>, c: string)
  {
    c in alphabet ==> NextSet(a, cl, s, c) == {} || NextSet(a, cl, s, c) in order
  }

  /** The output of `states_from_in_construction_automaton`, state by state:
      `order` lists the expanded sets in the order they were expanded. */
  ghost predicate Assembled(a: FiniteAutomaton, cl: map<string, set<string>>, alphabet: set<string>,
                            order: seq<set<string>>, states: seq<State>)
  {
    var sink := if |states| > |order| then states[|order|].name else "";
    && |states| == |order| + (if ReachesEmpty(a, cl, alphabet, order) then 1 else 0)
    && (forall k :: 0 <= k < |order| ==> BuiltAt(a, cl, alphabet, order, states, sink, k))
    && (|states| > |order| ==>
          && IsSinkName(sink, set k | 0 <= k < |order| :: NameOfStatesSet(order[k]))
          && !states[|order|].isFinal
          && SinkRow(alphabet, sink, states[|order|].transitions))
  }

  /** `utils.dict_to_transitions`: one transition per entry of the row. */
  method DictToTransitions(row: map<string, set<string>>, setNames: map<set<string>, string>, symbols: seq<string>)
    returns (ts: seq<Transition>)
    requires forall c :: c in symbols ==> c in row && row[c] in setNames
    ensures |ts| == |symbols|
    ensures forall i :: 0 <= i < |symbols| ==> ts[i] == Transition(Some(symbols[i]), setNames[row[symbols[i]]])
  {
    ts := [];
    for i := 0 to |symbols|
      invariant |ts| == i
      invariant forall j :: 0 <= j < i ==> ts[j] == Transition(Some(symbols[j]), setNames[row[symbols[j]]])
    {
      ts := ts + [Transition(Some(symbols[i]), setNames[row[symbols[i]]])];
    }
  }

  /** The `while empty_state_name in new_states_names.values()` loop. */
  method ChooseSinkName(taken: set<string>) returns (sink: string)
    ensures IsSinkName(sink, taken)
  {
    sink := "empty";
    ghost var k: nat := 0;
    while sink in taken
      invariant sink == Underscores(k) + "empty"
      invariant forall j: nat :: j < k ==> Underscores(j) + "empty" in taken
      decreases set v | v in taken && |v| >= |sink|
    {
      ghost var longer := set v | v in taken && |v| >= |sink|;
      ghost var was := sink;
      assert was in longer;
      assert Underscores(k + 1) == "_" + Underscores(k);
      sink := "_" + sink;
      k := k + 1;
      assert (set v | v in taken && |v| >= |sink|) <= longer - {was};
    }
  }

  /** `utils.states_from_in_construction_automaton`. */
  method StatesFromTable(a: FiniteAutomaton, cl: map<string, set<string>>, alphabet: set<string>,
                         table: map<set<string>, map<string, set<string>>>, keys: seq<set<string>>,
                         emptyFlag: bool)
    returns (states: seq<State>)
    requires forall s :: s in table <==> s in keys
    requires NoDuplicates(keys)
    requires forall k :: 0 <= k < |keys| ==> keys[k] != {}
    requires forall s :: RowIs(a, cl, alphabet, table, s)
    requires forall k, c :: 0 <= k < |keys| && c in alphabet ==>
               NextSet(a, cl, keys[k], c) == {} || NextSet(a, cl, keys[k], c) in table
    requires emptyFlag <==> ReachesEmpty(a, cl, alphabet, keys)
    ensures Assembled(a, cl, alphabet, keys, states)
  {
    var setNames := SetNames(table, keys);
    var symbols := Enumerate(alphabet);
    var sink := "";
    var sinkState := State("", false, []);
    if emptyFlag {
      sink := ChooseSinkName(setNames.Values);
      sinkState := SinkState(alphabet, symbols, sink);
      setNames := setNames[{} := sink];
    }
    RowsReady(a, cl, alphabet, table, keys, setNames, symbols, sink);
    var built := StatesForKeys(a, table, keys, setNames, symbols, sink);
    states := if emptyFlag then built + [sinkState] else built;
    AssembledHolds(a, cl, alphabet, table, keys, sink, built, states);
  }

  lemma {:induction false} RowsReady(a: FiniteAutomaton, cl: map<string, set<string>>, alphabet: set<string>,
                  table: map<set<string>, map<string, set<string>>>, keys: seq<set<string>>,
                  setNames: map<set<string>, string>, symbols: seq<string>, sink: string)
    requires forall s :: s in table <==> s in keys
    requires forall k :: 0 <= k < |keys| ==> keys[k] != {}
    requires forall s :: RowIs(a, cl, alphabet, table, s)
    requires forall k, c :: 0 <= k < |keys| && c in alphabet ==>
               NextSet(a, cl, keys[k], c) == {} || NextSet(a, cl, keys[k], c) in table
    requires forall x :: x in symbols <==> x in alphabet
    requires table.Keys <= setNames.Keys
    requires forall k, c :: 0 <= k < |keys| && c in alphabet && NextSet(a, cl, keys[k], c) == {} ==> {} in setNames
    requires forall u :: u in setNames && u != {} ==> setNames[u] == NameOfStatesSet(u)
    requires {} in setNames ==> setNames[{}] == sink
    ensures forall k :: 0 <= k < |keys| ==> ReadyToBuild(table, setNames, symbols, sink, keys[k])
  {
    forall k | 0 <= k < |keys|
      ensures ReadyToBuild(table, setNames, symbols, sink, keys[k])
    {
      assert RowIs(a, cl, alphabet, table, keys[k]);
      forall c | c in alphabet ensures table[keys[k]][c] in setNames {
        assert table[keys[k]][c] == NextSet(a, cl, keys[k], c);
      }
    }
  }

  lemma {:induction false} AssembledHolds(a: FiniteAutomaton, cl: map<string, set<string>>, alphabet: set<string>,
                       table: map<set<string>, map<string, set<string>>>, keys: seq<set<string>>,
                       sink: string, built: seq<State>, states: seq<State>)
    requires forall s :: RowIs(a, cl, alphabet, table, s)
    requires |built| == |keys|
    requires forall k :: 0 <= k < |keys| ==> keys[k] in table && StateOfSet(a, keys[k], table[keys[k]], sink, built[k])
    requires ReachesEmpty(a, cl, alphabet, keys) ==>
               && |states| == |built| + 1 && states[..|built|] == built && states[|built|].name == sink
               && IsSinkName(sink, set k | 0 <= k < |keys| :: NameOfStatesSet(keys[k]))
               && !states[|built|].isFinal && SinkRow(alphabet, sink, states[|built|].transitions)
    requires !ReachesEmpty(a, cl, alphabet, keys) ==> states == built && sink == ""
    ensures Assembled(a, cl, alphabet, keys, states)
  {
    forall k | 0 <= k < |keys|
      ensures BuiltAt(a, cl, alphabet, keys, states, sink, k)
    {
      assert states[k] == built[k];
      assert RowIs(a, cl, alphabet, table, keys[k]);
    }
  }

  /** What `StateForSet` needs to build the state of `s` from its row. */
  ghost predicate ReadyToBuild(table: map<set<string>, map<string, set<string>>>,
                               setNames: map<set<string>, string>, symbols: seq<string>, sink: string,
                               s: set<string>)
  {
    && s != {} && s in setNames && s in table
    && (forall x :: x in symbols <==> x in table[s])
    && (forall c :: c in table[s] ==> table[s][c] in setNames)
    && (forall u :: u in setNames && u != {} ==> setNames[u] == NameOfStatesSet(u))
    && ({} in setNames ==> setNames[{}] == sink)
  }

  /** The loop over `in_construction_automaton.items()`, in expansion order. */
  method StatesForKeys(a: FiniteAutomaton, table: map<set<string>, map<string, set<string>>>, keys: seq<set<string>>,
                       setNames: map<set<string>, string>, symbols: seq<string>, sink: string)
    returns (states: seq<State>)
    requires forall k :: 0 <= k < |keys| ==> ReadyToBuild(table, setNames, symbols, sink, keys[k])
    ensures |states| == |keys|
    ensures forall k :: 0 <= k < |keys| ==> keys[k] in table && StateOfSet(a, keys[k], table[keys[k]], sink, states[k])
  {
    states := [];
    for k := 0 to |keys|
      invariant |states| == k
      invariant forall j :: 0 <= j < k ==> keys[j] in table && StateOfSet(a, keys[j], table[keys[j]], sink, states[j])
    {
      assert ReadyToBuild(table, setNames, symbols, sink, keys[k]);
      var st := StateForSet(a, keys[k], table[keys[k]], setNames, symbols, sink);
      BuiltAppend(a, table, keys, sink, states, st);
      states := states + [st];
    }
  }

  lemma {:induction false} BuiltAppend(a: FiniteAutomaton, table: map<set<string>, map<string, set<string>>>, keys: seq<set<string>>,
                    sink: string, states: seq<State>, st: State)
    requires |states| < |keys|
    requires forall j :: 0 <= j < |states| ==> keys[j] in table && StateOfSet(a, keys[j], table[keys[j]], sink, states[j])
    requires keys[|states|] in table && StateOfSet(a, keys[|states|], table[keys[|states|]], sink, st)
    ensures forall j :: 0 <= j < |states| + 1 ==> keys[j] in table && StateOfSet(a, keys[j], table[keys[j]], sink, (states + [st])[j])
  {
    forall j | 0 <= j < |states| + 1
      ensures keys[j] in table && StateOfSet(a, keys[j], table[keys[j]], sink, (states + [st])[j])
    {
      if j < |states| { assert (states + [st])[j] == states[j]; }
    }
  }

  /** The deterministic state built for the set `s`. */
  ghost predicate StateOfSet(a: FiniteAutomaton, s: set<string>, row: map<string, set<string>>,
                             sink: string, st: State)
  {
    && st.name == NameOfStatesSet(s)
    && st.isFinal == HasFinal(a, s)
    && DetRow(row, sink, st.transitions)
  }

  /** The `new_states_names` dictionary: every expanded set's name. */
  method SetNames(table: map<set<string>, map<string, set<string>>>, keys: seq<set<string>>)
    returns (setNames: map<set<string>, string>)
    requires forall s :: s in table <==> s in keys
    ensures setNames.Keys == table.Keys
    ensures forall s :: s in setNames ==> setNames[s] == NameOfStatesSet(s)
    ensures setNames.Values == set k | 0 <= k < |keys| :: NameOfStatesSet(keys[k])
  {
    setNames := map s | s in table :: NameOfStatesSet(s);
    forall v | v in setNames.Values ensures v in set k | 0 <= k < |keys| :: NameOfStatesSet(keys[k]) {
      var s :| s in setNames && setNames[s] == v;
      var k :| 0 <= k < |keys| && keys[k] == s;
    }
    forall v | v in set k | 0 <= k < |keys| :: NameOfStatesSet(keys[k]) ensures v in setNames.Values {
      var k :| 0 <= k < |keys| && v == NameOfStatesSet(keys[k]);
      assert setNames[keys[k]] == v;
    }
  }

  /** The absorbing `empty` state: non-final, looping on every symbol. */
  method SinkState(alphabet: set<string>, symbols: seq<string>, sink: string) returns (st: State)
    requires forall x :: x in symbols <==> x in alphabet
    ensures st.name == sink && !st.isFinal
    ensures SinkRow(alphabet, sink, st.transitions)
  {
    var loops := seq(|symbols|, i requires 0 <= i < |symbols| => Transition(Some(symbols[i]), sink));
    st := AddTransitions(State(sink, false, []), loops);
    forall c | c in alphabet ensures Transition(Some(c), sink) in st.transitions {
      var i :| 0 <= i < |symbols| && symbols[i] == c;
      assert loops[i] in loops;
    }
  }

  /** One state of the loop over `in_construction_automaton.items()`. */
  method StateForSet(a: FiniteAutomaton, s: set<string>,
                     row: map<string, set<string>>, setNames: map<set<string>, string>, symbols: seq<string>,
                     sink: string)
    returns (st: State)
    requires s != {} && s in setNames
    requires forall x :: x in symbols <==> x in row
    requires forall c :: c in row ==> row[c] in setNames
    requires forall u :: u in setNames && u != {} ==> setNames[u] == NameOfStatesSet(u)
    requires {} in setNames ==> setNames[{}] == sink
    ensures StateOfSet(a, s, row, sink, st)
  {
    var ts := DictToTransitions(row, setNames, symbols);
    st := AddTransitions(State(setNames[s], HasFinal(a, s), []), ts);
    DetRowHolds(sink, row, setNames, symbols, ts, st.transitions);
  }

  lemma {:induction false} DetRowHolds(sink: string, row: map<string, set<string>>, setNames: map<set<string>, string>,
                    symbols: seq<string>, ts: seq<Transition>, result: seq<Transition>)
    requires forall x :: x in symbols <==> x in row
    requires forall c :: c in symbols ==> c in row && row[c] in setNames
    requires forall u :: u in setNames && u != {} ==> setNames[u] == NameOfStatesSet(u)
    requires {} in setNames ==> setNames[{}] == sink
    requires |ts| == |symbols|
    requires forall i :: 0 <= i < |symbols| ==> ts[i] == Transition(Some(symbols[i]), setNames[row[symbols[i]]])
    requires forall t :: t in result <==> t in ts
    requires NoDuplicates(result)
    ensures DetRow(row, sink, result)
  {
    forall t | t in result
      ensures t.symbol.Some? && t.symbol.value in row
      ensures t.target == TargetName(row[t.symbol.value], sink)
    {
      var i :| 0 <= i < |ts| && ts[i] == t;
    }
    forall c | c in row ensures Transition(Some(c), TargetName(row[c], sink)) in result {
      var i :| 0 <= i < |symbols| && symbols[i] == c;
      assert ts[i] in ts;
    }
  }

  /** Every set the worklist ever holds is the start set or the successor
      of an expanded set. */
  ghost predicate Discovered(a: FiniteAutomaton, cl: map<string, set<string>>, alphabet: set<string>,
                             start: set<string>, keys: seq<set<string>>, s: set<string>)
  {
    s == start || exists k, c :: 0 <= k < |keys| && c in alphabet && NextSet(a, cl, keys[k], c) == s
  }

  /** `s` is the start set or a successor recorded in the table. */
  ghost predicate InTable(table: map<set<string>, map<string, set<string>>>, start: set<string>, s: set<string>)
  {
    s == start || exists u, c :: u in table && c in table[u] && table[u][c] == s
  }

  /** The bookkeeping of the worklist between two pops: `closed` is what
      has been expanded (in the order `keys`), and every recorded successor
      is expanded, still waiting in `open`, or empty with the flag raised. */
  ghost predicate Bookkeeping(start: set<string>, open: set<set<string>>, closed: set<set<string>>,
                              table: map<set<string>, map<string, set<string>>>, keys: seq<set<string>>,
                              emptyFlag: bool)
  {
    && start != {}
    && closed == table.Keys
    && (forall s :: s in table <==> s in keys)
    && NoDuplicates(keys)
    && {} !in closed
    && (keys == [] ==> open == {start} && !emptyFlag)
    && (keys != [] ==> keys[0] == start)
    && (start in closed || start in open)
    && (forall u, c :: u in table && c in table[u] ==>
          table[u][c] in closed + open || (table[u][c] == {} && emptyFlag))
    && (forall s :: s in open + closed ==> InTable(table, start, s))
    && (emptyFlag ==> exists u, c :: u in table && c in table[u] && table[u][c] == {})
  }

  /** What the sets and rows of the worklist are: sets of states of `a`,
      and each row the successors of its set. */
  ghost predicate RowsOf(a: FiniteAutomaton, cl: map<string, set<string>>, alphabet: set<string>,
                         open: set<set<string>>, table: map<set<string>, map<string, set<string>>>)
  {
    && (forall s :: s in open ==> s <= Names(a.states))
    && (forall s :: s in table ==> s <= Names(a.states))
    && (forall s :: RowIs(a, cl, alphabet, table, s))
  }

  ghost predicate WorklistInv(a: FiniteAutomaton, cl: map<string, set<string>>, alphabet: set<string>,
                              start: set<string>, open: set<set<string>>, closed: set<set<string>>,
                              table: map<set<string>, map<string, set<string>>>, keys: seq<set<string>>,
                              emptyFlag: bool)
  {
    Bookkeeping(start, open, closed, table, keys, emptyFlag) && RowsOf(a, cl, alphabet, open, table)
  }

  lemma {:induction false} WorklistInit(a: FiniteAutomaton, cl: map<string, set<string>>, alphabet: set<string>)
    requires Valid(a) && ClosuresOf(a, cl) && |a.states| > 0
    ensures WorklistInv(a, cl, alphabet, cl[a.states[0].name], {cl[a.states[0].name]}, {}, map[], [], false)
  {
    assert a.states[0].name in Names(a.states);
    ClosureWithinStates(a, cl, a.states[0].name);
  }

  /** Popping the empty set or a set already expanded. */
  lemma {:induction false} WorklistSkip(start: set<string>, open: set<set<string>>, closed: set<set<string>>,
                     table: map<set<string>, map<string, set<string>>>, keys: seq<set<string>>,
                     emptyFlag: bool, current: set<string>)
    requires Bookkeeping(start, open, closed, table, keys, emptyFlag)
    requires current in open && (current == {} || current in closed)
    ensures Bookkeeping(start, open - {current}, closed, table, keys, emptyFlag || current == {})
  {
    if current == {} {
      assert InTable(table, start, current);
    }
  }

  /** Popping a new set: `_to_det_expand_set` records its row. */
  lemma {:induction false} WorklistExpand(start: set<string>, open: set<set<string>>, closed: set<set<string>>,
                       table: map<set<string>, map<string, set<string>>>, keys: seq<set<string>>,
                       emptyFlag: bool, current: set<string>, row: map<string, set<string>>)
    requires Bookkeeping(start, open, closed, table, keys, emptyFlag)
    requires current in open && current != {} && current !in closed
    ensures Bookkeeping(start, open - {current} + row.Values, closed + {current},
                        table[current := row], keys + [current], emptyFlag)
  {
    var open', closed', table', keys' := open - {current} + row.Values, closed + {current}, table[current := row], keys + [current];
    forall u, c | u in table' && c in table'[u]
      ensures table'[u][c] in closed' + open' || (table'[u][c] == {} && emptyFlag)
    {
      if u != current {
        assert table'[u] == table[u];
      } else {
        assert table'[u][c] in row.Values;
      }
    }
    forall s | s in open' + closed' ensures InTable(table', start, s) {
      if s in open + closed {
        if s != start {
          assert InTable(table, start, s);
          var u, c :| u in table && c in table[u] && table[u][c] == s;
          assert table'[u] == table[u];
        }
      } else {
        assert s in row.Values;
        var c :| c in row && row[c] == s;
        assert table'[current][c] == s;
      }
    }
    if emptyFlag {
      var u, c :| u in table && c in table[u] && table[u][c] == {};
      assert table'[u] == table[u];
    }
    assert forall s :: s in table' <==> s in keys';
  }

  /** The new row's successors are sets of states. */
  lemma {:induction false} RowsExpand(a: FiniteAutomaton, cl: map<string, set<string>>, alphabet: set<string>,
                   open: set<set<string>>, table: map<set<string>, map<string, set<string>>>,
                   current: set<string>, row: map<string, set<string>>)
    requires Valid(a) && ClosuresOf(a, cl)
    requires RowsOf(a, cl, alphabet, open, table)
    requires current in open
    requires row == Row(a, cl, alphabet, current)
    ensures RowsOf(a, cl, alphabet, open - {current} + row.Values, table[current := row])
  {
    forall s | s in row.Values ensures s <= Names(a.states) {
      var c :| c in row && row[c] == s;
      NextSetIsLeast(a, cl, current, c);
    }
    var table' := table[current := row];
    forall s ensures RowIs(a, cl, alphabet, table', s) {
      if s != current { assert RowIs(a, cl, alphabet, table, s); }
    }
  }

  /** An empty worklist: every recorded successor is expanded or is the
      empty set, and the flag records exactly whether the empty set was
      reached. */
  lemma {:induction false} WorklistDone(a: FiniteAutomaton, cl: map<string, set<string>>, alphabet: set<string>,
                     start: set<string>, closed: set<set<string>>,
                     table: map<set<string>, map<string, set<string>>>, keys: seq<set<string>>,
                     emptyFlag: bool)
    requires WorklistInv(a, cl, alphabet, start, {}, closed, table, keys, emptyFlag)
    ensures |keys| > 0 && keys[0] == start
    ensures forall k :: 0 <= k < |keys| ==> keys[k] != {}
    ensures forall k, c :: 0 <= k < |keys| && c in alphabet ==>
              NextSet(a, cl, keys[k], c) == {} || NextSet(a, cl, keys[k], c) in table
    ensures emptyFlag <==> ReachesEmpty(a, cl, alphabet, keys)
    ensures forall k :: 0 <= k < |keys| ==> Discovered(a, cl, alphabet, keys[0], keys, keys[k])
  {
    BookkeepingDone(start, closed, table, keys, emptyFlag);
    SuccessorsDone(a, cl, alphabet, table, keys, emptyFlag);
    forall k | 0 <= k < |keys| ensures Discovered(a, cl, alphabet, keys[0], keys, keys[k]) {
      DiscoveredFromTable(a, cl, alphabet, table, keys, keys[k]);
    }
  }

  lemma {:induction false} BookkeepingDone(start: set<string>, closed: set<set<string>>,
                        table: map<set<string>, map<string, set<string>>>, keys: seq<set<string>>,
                        emptyFlag: bool)
    requires Bookkeeping(start, {}, closed, table, keys, emptyFlag)
    ensures |keys| > 0 && keys[0] == start
    ensures forall k :: 0 <= k < |keys| ==> keys[k] != {} && InTable(table, keys[0], keys[k])
    ensures forall u, c :: u in table && c in table[u] ==> table[u][c] in table || (table[u][c] == {} && emptyFlag)
  {
    forall k | 0 <= k < |keys| ensures keys[k] != {} && InTable(table, keys[0], keys[k]) {
      assert keys[k] in table;
    }
  }

  lemma {:induction false} SuccessorsDone(a: FiniteAutomaton, cl: map<string, set<string>>, alphabet: set<string>,
                       table: map<set<string>, map<string, set<string>>>, keys: seq<set<string>>,
                       emptyFlag: bool)
    requires forall s :: s in table <==> s in keys
    requires {} !in table
    requires forall s :: RowIs(a, cl, alphabet, table, s)
    requires forall u, c :: u in table && c in table[u] ==> table[u][c] in table || (table[u][c] == {} && emptyFlag)
    requires emptyFlag ==> exists u, c :: u in table && c in table[u] && table[u][c] == {}
    ensures forall k, c :: 0 <= k < |keys| && c in alphabet ==>
              NextSet(a, cl, keys[k], c) == {} || NextSet(a, cl, keys[k], c) in table
    ensures emptyFlag <==> ReachesEmpty(a, cl, alphabet, keys)
  {
    forall k, c | 0 <= k < |keys| && c in alphabet
      ensures NextSet(a, cl, keys[k], c) == {} || NextSet(a, cl, keys[k], c) in table
      ensures NextSet(a, cl, keys[k], c) == {} ==> emptyFlag
    {
      assert keys[k] in table;
      assert RowIs(a, cl, alphabet, table, keys[k]);
      assert table[keys[k]][c] == NextSet(a, cl, keys[k], c);
    }
    if emptyFlag {
      var u, c :| u in table && c in table[u] && table[u][c] == {};
      var k :| 0 <= k < |keys| && keys[k] == u;
      assert RowIs(a, cl, alphabet, table, u);
      assert NextSet(a, cl, keys[k], c) == {};
    }
  }

  lemma {:induction false} DiscoveredFromTable(a: FiniteAutomaton, cl: map<string, set<string>>, alphabet: set<string>,
                            table: map<set<string>, map<string, set<string>>>, keys: seq<set<string>>,
                            s: set<string>)
    requires |keys| > 0
    requires forall s :: s in table <==> s in keys
    requires forall s :: RowIs(a, cl, alphabet, table, s)
    requires InTable(table, keys[0], s)
    ensures Discovered(a, cl, alphabet, keys[0], keys, s)
  {
    if s != keys[0] {
      var u, c :| u in table && c in table[u] && table[u][c] == s;
      var j :| 0 <= j < |keys| && keys[j] == u;
      assert RowIs(a, cl, alphabet, table, u);
      assert NextSet(a, cl, keys[j], c) == s;
    }
  }

  /** The `while open_set` loop of `to_deterministic`, from the closure of
      the initial state. */
  method RunWorklist(a: FiniteAutomaton, cl: map<string, set<string>>, alphabet: set<string>, start: set<string>)
    returns (table: map<set<string>, map<string, set<string>>>, keys: seq<set<string>>, emptyFlag: bool)
    requires Valid(a) && ClosuresOf(a, cl)
    requires WorklistInv(a, cl, alphabet, start, {start}, {}, map[], [], false)
    ensures forall s :: s in table <==> s in keys
    ensures NoDuplicates(keys)
    ensures forall s :: RowIs(a, cl, alphabet, table, s)
    ensures |keys| > 0 && keys[0] == start
    ensures forall k :: 0 <= k < |keys| ==> keys[k] != {}
    ensures forall k, c :: 0 <= k < |keys| && c in alphabet ==>
              NextSet(a, cl, keys[k], c) == {} || NextSet(a, cl, keys[k], c) in table
    ensures emptyFlag <==> ReachesEmpty(a, cl, alphabet, keys)
    ensures forall k :: 0 <= k < |keys| ==> Discovered(a, cl, alphabet, keys[0], keys, keys[k])
    ensures forall k :: 0 <= k < |keys| ==> keys[k] <= Names(a.states)
  {
    ghost var all := Names(a.states);
    var open := {start};
    var closed: set<set<string>> := {};
    ghost var left := Subsets(all);
    table, keys, emptyFlag := map[], [], false;
    while open != {}
      invariant WorklistInv(a, cl, alphabet, start, open, closed, table, keys, emptyFlag)
      invariant left == Subsets(all) - closed
      decreases left, open
    {
      var current :| current in open;
      if current == {} || current in closed {
        WorklistSkip(start, open, closed, table, keys, emptyFlag, current);
        ghost var was := open;
        open := open - {current};
        emptyFlag := emptyFlag || current == {};
        assert open < was;
      } else {
        assert current in left;
        ghost var was := left;
        var row := ExpandSet(a, cl, alphabet, current);
        WorklistExpand(start, open, closed, table, keys, emptyFlag, current, row);
        RowsExpand(a, cl, alphabet, open, table, current, row);
        open := open - {current} + row.Values;
        closed := closed + {current};
        table := table[current := row];
        keys := keys + [current];
        left := left - {current};
        assert left < was;
      }
    }
    WorklistDone(a, cl, alphabet, start, closed, table, keys, emptyFlag);
    forall k | 0 <= k < |keys| ensures keys[k] <= Names(a.states) {
      assert keys[k] in table;
    }
  }

  /** `FiniteAutomaton.to_deterministic`: the worklist over sets of states,
      then the assembly of the deterministic automaton.  `order` is the
      order in which the sets were expanded. */
  method ToDeterministic(a: FiniteAutomaton) returns (r: Result<FiniteAutomaton>, ghost cl: map<string, set<string>>, ghost order: seq<set<string>>)
    requires Valid(a)
    ensures |a.states| == 0 <==> r == Err(NoInitialState)
    ensures |a.states| > 0 ==> ClosuresOf(a, cl)
    ensures |a.states| > 0 ==> |order| > 0 && IsClosureOf(a, a.states[0].name, order[0])
    ensures |a.states| > 0 ==> NoDuplicates(order) && forall k :: 0 <= k < |order| ==> order[k] != {}
    ensures |a.states| > 0 ==> forall k, c :: 0 <= k < |order| ==>
              SuccessorListed(a, cl, Alphabet(a.states), order, order[k], c)
    ensures |a.states| > 0 ==> forall k :: 0 <= k < |order| ==>
              Discovered(a, cl, Alphabet(a.states), order[0], order, order[k])
    ensures |a.states| > 0 ==> exists states ::
              Assembled(a, cl, Alphabet(a.states), order, states) && r == NewAutomaton(states)
    ensures r.Ok? ==> forall i :: 0 <= i < |r.value.states| ==> TotalOver(r.value.states[i].transitions, Alphabet(a.states))
    ensures |a.states| > 0 && (forall x :: x in Names(a.states) ==> '|' !in x) ==> r.Ok?
  {
    var alphabet := Alphabet(a.states);
    var closures := ComputeClosures(a);
    cl := closures;
    if |a.states| == 0 {
      return Err(NoInitialState), cl, [];
    }
    var start := closures[a.states[0].name];
    WorklistInit(a, closures, alphabet);
    var table, keys, emptyFlag := RunWorklist(a, closures, alphabet, start);
    var states := StatesFromTable(a, closures, alphabet, table, keys, emptyFlag);
    order := keys;
    r := NewAutomaton(states);
    forall k, c | 0 <= k < |order| ensures SuccessorListed(a, cl, alphabet, order, order[k], c) {
      if c in alphabet && NextSet(a, cl, order[k], c) != {} {
        assert NextSet(a, cl, order[k], c) in table;
      }
    }
    assert Assembled(a, cl, alphabet, order, states) && r == NewAutomaton(states);
    AssembledTotal(a, cl, alphabet, order, states);
    AssembledTargets(a, cl, alphabet, order, states);
    if forall x :: x in Names(a.states) ==> '|' !in x {
      AssembledDistinct(a, cl, alphabet, order, states);
    }
  }

  /** Transitions with exactly one per symbol of `alphabet` and no other
      (in particular no lambda transition). */
  predicate TotalOver(ts: seq<Transition>, alphabet: set<string>)
  {
    && (forall t :: t in ts ==> t.symbol.Some? && t.symbol.value in alphabet)
    && (forall c :: c in alphabet ==> exists t :: t in ts && t.symbol == Some(c))
    && (forall i, j :: 0 <= i < j < |ts| ==> ts[i].symbol != ts[j].symbol)
  }

  lemma {:induction false} DetRowTotal(row: map<string, set<string>>, sink: string, ts: seq<Transition>)
    requires DetRow(row, sink, ts)
    ensures TotalOver(ts, row.Keys)
  {
    forall c | c in row ensures exists t :: t in ts && t.symbol == Some(c) {
      assert Transition(Some(c), TargetName(row[c], sink)) in ts;
    }
    forall i, j | 0 <= i < j < |ts| ensures ts[i].symbol != ts[j].symbol {
      assert ts[i] in ts && ts[j] in ts;
    }
  }

  lemma {:induction false} SinkRowTotal(alphabet: set<string>, sink: string, ts: seq<Transition>)
    requires SinkRow(alphabet, sink, ts)
    ensures TotalOver(ts, alphabet)
  {
    forall c | c in alphabet ensures exists t :: t in ts && t.symbol == Some(c) {
      assert Transition(Some(c), sink) in ts;
    }
    forall j, k | 0 <= j < k < |ts| ensures ts[j].symbol != ts[k].symbol {
      assert ts[j] in ts && ts[k] in ts;
    }
  }

  lemma {:induction false} StateTotal(a: FiniteAutomaton, cl: map<string, set<string>>, alphabet: set<string>,
                   s: set<string>, sink: string, st: State)
    requires StateOfSet(a, s, Row(a, cl, alphabet, s), sink, st)
    ensures TotalOver(st.transitions, alphabet)
  {
    var row := Row(a, cl, alphabet, s);
    DetRowTotal(row, sink, st.transitions);
    assert row.Keys == alphabet;
  }

  lemma {:induction false} SetStatesTotal(a: FiniteAutomaton, cl: map<string, set<string>>, alphabet: set<string>,
                       order: seq<set<string>>, states: seq<State>)
    requires Assembled(a, cl, alphabet, order, states)
    ensures forall i :: 0 <= i < |order| ==> TotalOver(states[i].transitions, alphabet)
  {
    var sink := if |states| > |order| then states[|order|].name else "";
    forall i | 0 <= i < |order| ensures TotalOver(states[i].transitions, alphabet) {
      assert BuiltAt(a, cl, alphabet, order, states, sink, i);
      StateTotal(a, cl, alphabet, order[i], sink, states[i]);
    }
  }

  lemma {:induction false} SinkStateTotal(a: FiniteAutomaton, cl: map<string, set<string>>, alphabet: set<string>,
                       order: seq<set<string>>, states: seq<State>)
    requires Assembled(a, cl, alphabet, order, states)
    ensures |states| > |order| ==> TotalOver(states[|order|].transitions, alphabet)
  {
    if |states| > |order| {
      SinkRowTotal(alphabet, states[|order|].name, states[|order|].transitions);
    }
  }

  /** Every state `to_deterministic` builds has exactly one transition per
      symbol of the original alphabet, and no lambda transition. */
  lemma {:induction false} AssembledTotal(a: FiniteAutomaton, cl: map<string, set<string>>, alphabet: set<string>,
                       order: seq<set<string>>, states: seq<State>)
    requires Assembled(a, cl, alphabet, order, states)
    ensures forall i :: 0 <= i < |states| ==> TotalOver(states[i].transitions, alphabet)
  {
    SetStatesTotal(a, cl, alphabet, order, states);
    SinkStateTotal(a, cl, alphabet, order, states);
    assert |states| <= |order| + 1;
    forall i | 0 <= i < |states| ensures TotalOver(states[i].transitions, alphabet) {
      if i < |order| {
      } else {
        assert i == |order|;
      }
    }
  }

  /** The names of the built states are distinct, provided no original name
      holds a `'|'`. */
  lemma {:induction false} AssembledDistinct(a: FiniteAutomaton, cl: map<string, set<string>>, alphabet: set<string>,
                          order: seq<set<string>>, states: seq<State>)
    requires Assembled(a, cl, alphabet, order, states)
    requires NoDuplicates(order)
    requires forall k :: 0 <= k < |order| ==> order[k] != {} && forall x :: x in order[k] ==> '|' !in x
    ensures DistinctNames(states)
  {
    var sink := if |states| > |order| then states[|order|].name else "";
    forall k | 0 <= k < |order| ensures states[k].name == NameOfStatesSet(order[k]) {
      assert BuiltAt(a, cl, alphabet, order, states, sink, k);
    }
    ghost var taken := set k | 0 <= k < |order| :: NameOfStatesSet(order[k]);
    assert |states| > |order| ==> sink !in taken;
    forall i, j | 0 <= i < j < |states| ensures states[i].name != states[j].name {
      if j < |order| {
        if NameOfStatesSet(order[i]) == NameOfStatesSet(order[j]) {
          NameOfStatesSetInjective(order[i], order[j]);
          assert false;
        }
      } else {
        assert j == |order| && states[j].name == sink;
        assert states[i].name in taken;
      }
    }
  }

  /** Every transition of the built states leads to a built state. */
  lemma {:induction false} AssembledTargets(a: FiniteAutomaton, cl: map<string, set<string>>, alphabet: set<string>,
                         order: seq<set<string>>, states: seq<State>)
    requires Assembled(a, cl, alphabet, order, states)
    requires forall k, c :: 0 <= k < |order| ==> SuccessorListed(a, cl, alphabet, order, order[k], c)
    ensures Targets(states) <= Names(states)
  {
    var sink := if |states| > |order| then states[|order|].name else "";
    forall x | x in Targets(states) ensures x in Names(states) {
      var i, t :| 0 <= i < |states| && t in states[i].transitions && t.target == x;
      if i < |order| {
        assert BuiltAt(a, cl, alphabet, order, states, sink, i);
        var row := Row(a, cl, alphabet, order[i]);
        var c := t.symbol.value;
        assert t.target == TargetName(row[c], sink);
        assert SuccessorListed(a, cl, alphabet, order, order[i], c);
        if row[c] == {} {
          assert ReachesEmpty(a, cl, alphabet, order) by {
            assert NextSet(a, cl, order[i], c) == {};
          }
          assert states[|order|].name == x;
        } else {
          var k :| 0 <= k < |order| && order[k] == row[c];
          assert BuiltAt(a, cl, alphabet, order, states, sink, k);
          assert states[k].name == x;
        }
      } else {
        assert i == |order| && |states| > |order|;
        assert SinkRow(alphabet, sink, states[i].transitions);
      }
    }
  }
}
