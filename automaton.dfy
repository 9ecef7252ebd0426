/** The name-keyed automaton of `p1/automata/automaton.py`: states,
    transitions, the checked constructor and the pure helpers of its
    `utils` class.

    A state is identified by its name (Python's `State.__eq__` and
    `__hash__` look at the name only), so a set of states is modelled as the
    set of their names.  Transitions name their target state.
 */
module Automata {
  import opened StateNames

  datatype Option<T> = None | Some(value: T)

  /** The exceptions the core raises. */
  datatype Error =
    | DuplicateStateName      // ValueError("There are states with the same name")
    | UndefinedTarget         // ValueError("There are transitions to an undefined state")
    | MissingTransition       // DFAError
    | InvalidSymbol           // InvalidSymbol
    | MalformedRegex          // IndexError on an operator or automaton stack
    | NoInitialState          // IndexError on `states[0]` of an automaton without states
    | NotDeterministic        // ValueError("Automata are not deterministic")
    | FormatParseError        // FormatParseError of `AutomataFormat.read`
    | PartitionError          // PartitionError of `utils.get_equivalence_class`

  datatype Result<T> = Ok(value: T) | Err(error: Error)

  /** The outcome of an operation that returns nothing or raises. */
  datatype Outcome = Success | Failure(error: Error)

  /** `symbol == None` is a lambda transition. */
  datatype Transition = Transition(symbol: Option<string>, target: string)

  datatype State = State(name: string, isFinal: bool, transitions: seq<Transition>)

  /** The first state is the initial one. */
  datatype FiniteAutomaton = FiniteAutomaton(states: seq<State>)

  /** Python truthiness: `if transition.symbol` is false for `None` and for
      the empty string alike. */
  predicate IsLambda(symbol: Option<string>)
  {
    symbol.None? || symbol.value == ""
  }

  function Names(states: seq<State>): set<string>
  {
    set i | 0 <= i < |states| :: states[i].name
  }

  /** Every name some transition points to. */
  function Targets(states: seq<State>): set<string>
  {
    set i, t | 0 <= i < |states| && t in states[i].transitions :: t.target
  }

  predicate DistinctNames(states: seq<State>)
  {
    forall i, j :: 0 <= i < j < |states| ==> states[i].name != states[j].name
  }

  /** With distinct names, a name picks out one index. */
  lemma {:induction false} NamesIndexed(states: seq<State>)
    requires DistinctNames(states)
    ensures forall i, j :: 0 <= i < |states| && 0 <= j < |states| && states[i].name == states[j].name ==> i == j
  {
  }

  predicate NoDuplicates<T(==)>(xs: seq<T>)
  {
    forall i, j :: 0 <= i < j < |xs| ==> xs[i] != xs[j]
  }

  /** What `FiniteAutomaton.__init__` guarantees of every automaton it lets through. */
  predicate Valid(a: FiniteAutomaton)
  {
    DistinctNames(a.states) && Targets(a.states) <= Names(a.states)
  }

  /** A prefix one longer is the prefix and the next element. */
  lemma {:induction false} PrefixSnoc<T>(s: seq<T>, k: nat)
    requires k < |s|
    ensures s[..k + 1] == s[..k] + [s[k]]
  {
  }

  lemma {:induction false} PrefixAll<T>(s: seq<T>)
    ensures s[..|s|] == s
  {
  }

  /** The names of a prefix grow by one name per state. */
  lemma {:induction false} NamesSnoc(states: seq<State>, k: nat)
    requires k < |states|
    ensures Names(states[..k + 1]) == Names(states[..k]) + {states[k].name}
  {
    forall x | x in Names(states[..k + 1]) ensures x in Names(states[..k]) + {states[k].name} {
      var j :| 0 <= j < k + 1 && states[..k + 1][j].name == x;
      if j < k { assert states[..k][j] == states[j]; }
    }
    forall x | x in Names(states[..k]) ensures x in Names(states[..k + 1]) {
      var j :| 0 <= j < k && states[..k][j].name == x;
      assert states[..k + 1][j] == states[j];
    }
    assert states[..k + 1][k] == states[k];
  }

  /** Two maps keyed by the state names that agree at every state are equal. */
  lemma {:induction false} SameByName<V>(states: seq<State>, m1: map<string, V>, m2: map<string, V>)
    requires m1.Keys == Names(states) && m2.Keys == Names(states)
    requires forall j :: 0 <= j < |states| ==> m1[states[j].name] == m2[states[j].name]
    ensures m1 == m2
  {
    forall n | n in m1 ensures m1[n] == m2[n] {
      var j :| 0 <= j < |states| && states[j].name == n;
    }
  }

  /** `len(set(states)) == len(states)` is the absence of a repeated name. */
  lemma {:induction false} NamesCardinality(states: seq<State>)
    ensures |Names(states)| <= |states|
    ensures |Names(states)| == |states| <==> DistinctNames(states)
    decreases |states|
  {
    if |states| > 0 {
      var init, last := states[..|states| - 1], states[|states| - 1];
      NamesCardinality(init);
      NamesOfInit(states);
      if last.name in Names(init) {
        var i :| 0 <= i < |init| && init[i].name == last.name;
        assert states[i].name == states[|states| - 1].name;
      } else {
        DistinctNamesSnoc(states);
      }
    }
  }

  lemma {:induction false} NamesOfInit(states: seq<State>)
    requires |states| > 0
    ensures Names(states) == Names(states[..|states| - 1]) + {states[|states| - 1].name}
  {
    var init := states[..|states| - 1];
    forall x | x in Names(states) ensures x in Names(init) + {states[|states| - 1].name} {
      var i :| 0 <= i < |states| && states[i].name == x;
      if i < |states| - 1 { assert init[i] == states[i]; }
    }
    forall x | x in Names(init) ensures x in Names(states) {
      var i :| 0 <= i < |init| && init[i].name == x;
      assert states[i] == init[i];
    }
  }

  /** A last name not met before keeps the names distinct iff they were. */
  lemma {:induction false} DistinctNamesSnoc(states: seq<State>)
    requires |states| > 0 && states[|states| - 1].name !in Names(states[..|states| - 1])
    ensures DistinctNames(states) <==> DistinctNames(states[..|states| - 1])
  {
    var init := states[..|states| - 1];
    if DistinctNames(init) {
      forall i, j | 0 <= i < j < |states| ensures states[i].name != states[j].name {
        if j < |states| - 1 {
          assert init[i] == states[i] && init[j] == states[j];
        } else {
          assert states[i].name in Names(init) by { assert init[i] == states[i]; }
        }
      }
    } else {
      var i, j :| 0 <= i < j < |init| && init[i].name == init[j].name;
      assert states[i] == init[i] && states[j] == init[j];
    }
  }

  /** `FiniteAutomaton(states)`: the duplicate-name check comes first, then
      the check that every transition target is a state. */
  function NewAutomaton(states: seq<State>): (r: Result<FiniteAutomaton>)
    ensures r.Ok? <==> Valid(FiniteAutomaton(states))
    ensures r.Ok? ==> r.value.states == states
    ensures r.Err? && !DistinctNames(states) ==> r.error == DuplicateStateName
    ensures r.Err? && DistinctNames(states) ==> r.error == UndefinedTarget
  {
    NamesCardinality(states);
    if |Names(states)| != |states| then Err(DuplicateStateName)
    else if !(Targets(states) <= Names(states)) then Err(UndefinedTarget)
    else Ok(FiniteAutomaton(states))
  }

  /** The `name2state` dictionary of a constructed automaton. */
  function Name2State(a: FiniteAutomaton): (m: map<string, State>)
    requires DistinctNames(a.states)
    ensures m.Keys == Names(a.states)
    ensures forall i :: 0 <= i < |a.states| ==> m[a.states[i].name] == a.states[i]
  {
    NamesIndexed(a.states);
    map i | 0 <= i < |a.states| :: a.states[i].name := a.states[i]
  }

  /** `State.add_transitions`: extend the list, then drop repeats (Python
      rebuilds it through a set, so the order of the result is not fixed;
      this is one admissible order). */
  method AddTransitions(s: State, added: seq<Transition>) returns (r: State)
    ensures r.name == s.name && r.isFinal == s.isFinal
    ensures forall t :: t in r.transitions <==> t in s.transitions || t in added
    ensures NoDuplicates(r.transitions)
  {
    var all := s.transitions + added;
    var ts: seq<Transition> := [];
    var i := 0;
    while i < |all|
      invariant 0 <= i <= |all|
      invariant forall t :: t in ts <==> t in all[..i]
      invariant NoDuplicates(ts)
    {
      assert all[..i + 1] == all[..i] + [all[i]];
      if all[i] !in ts {
        ts := ts + [all[i]];
      }
      i := i + 1;
    }
    assert all[..i] == all;
    r := s.(transitions := ts);
  }

  /** `utils.alphabet`: the non-lambda symbols that label a transition of
      one of `states`. */
  function Alphabet(states: seq<State>): (r: set<string>)
    ensures "" !in r
  {
    set i, t | 0 <= i < |states| && t in states[i].transitions && !IsLambda(t.symbol) :: t.symbol.value
  }

  /** `any(state.is_final for state in states_set)`. */
  predicate HasFinal(a: FiniteAutomaton, s: set<string>)
  {
    exists i :: 0 <= i < |a.states| && a.states[i].name in s && a.states[i].isFinal
  }

  /** `utils.name_of_states_set`: `'empty'` for no states, otherwise the
      names sorted and joined with `'|'`. */
  function NameOfStatesSet(s: set<string>): (r: string)
  {
    if s == {} then "empty" else Join(SortedNames(s), '|')
  }

  /** Two different non-empty sets of states get different names, provided no
      state name holds a `'|'`. */
  lemma {:induction false} NameOfStatesSetInjective(s1: set<string>, s2: set<string>)
    requires s1 != {} && s2 != {}
    requires forall x :: x in s1 + s2 ==> '|' !in x
    requires NameOfStatesSet(s1) == NameOfStatesSet(s2)
    ensures s1 == s2
  {
    NameOfStatesSetSplits(s1);
    NameOfStatesSetSplits(s2);
    SortedNamesDetermine(s1, s2);
  }

  /** A set is determined by its sorted list of names. */
  lemma {:induction false} SortedNamesDetermine(s1: set<string>, s2: set<string>)
    requires SortedNames(s1) == SortedNames(s2)
    ensures s1 == s2
  {
    var xs := SortedNames(s1);
    forall x ensures x in s1 <==> x in s2 {
      assert x in s1 <==> x in xs;
    }
  }

  /** The name of a non-empty set is its sorted names, recovered by a split. */
  lemma {:induction false} NameOfStatesSetSplits(s: set<string>)
    requires s != {}
    requires forall x :: x in s ==> '|' !in x
    ensures Split(NameOfStatesSet(s), '|') == SortedNames(s)
  {
    var xs := SortedNames(s);
    forall i | 0 <= i < |xs| ensures '|' !in xs[i] {
      assert xs[i] in s;
    }
    SplitJoin(xs, '|');
  }
}
