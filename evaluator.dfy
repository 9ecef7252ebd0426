/** The step-wise evaluator of `p1/g1401_cuesta_zamanillo/automaton_evaluator.py`:
    a set of current states advanced one symbol at a time. */
module Evaluation {
  import opened Automata
  import opened Closures

  /** The current states after reading `w` from `s`, one character at a
      time (iterating over a Python `str` yields one-character strings). */
  function Run(a: FiniteAutomaton, cl: map<string, set<string>>, s: set<string>, w: string): set<string>
    decreases |w|
  {
    if |w| == 0 then s else Run(a, cl, NextSet(a, cl, s, [w[0]]), w[1..])
  }

  /** How many leading characters of `w` are symbols of `alphabet`. */
  function ValidPrefix(alphabet: set<string>, w: string): (n: nat)
    ensures n <= |w|
    ensures forall i :: 0 <= i < n ==> [w[i]] in alphabet
    ensures n < |w| ==> [w[n]] !in alphabet
    decreases |w|
  {
    if |w| == 0 || [w[0]] !in alphabet then 0 else 1 + ValidPrefix(alphabet, w[1..])
  }

  /** Reading `u` then `v` is reading `u + v`. */
  lemma {:induction false} RunAppend(a: FiniteAutomaton, cl: map<string, set<string>>, s: set<string>, u: string, v: string)
    ensures Run(a, cl, s, u + v) == Run(a, cl, Run(a, cl, s, u), v)
    decreases |u|
  {
    if |u| > 0 {
      assert (u + v)[0] == u[0] && (u + v)[1..] == u[1..] + v;
      RunAppend(a, cl, NextSet(a, cl, s, [u[0]]), u[1..], v);
    } else {
      assert u + v == v;
    }
  }

  /** Once no state is current, none ever is again. */
  lemma {:induction false} RunOfEmpty(a: FiniteAutomaton, cl: map<string, set<string>>, w: string)
    ensures Run(a, cl, {}, w) == {}
    decreases |w|
  {
    if |w| > 0 {
      NextSetOfEmpty(a, cl, [w[0]]);
      RunOfEmpty(a, cl, w[1..]);
    }
  }

  /** After at least one symbol the current states are a lambda-closed set
      of states of the automaton. */
  lemma {:induction false} RunClosed(a: FiniteAutomaton, cl: map<string, set<string>>, s: set<string>, w: string)
    requires Valid(a) && ClosuresOf(a, cl)
    requires s <= Names(a.states) && LambdaClosed(a, s)
    ensures Run(a, cl, s, w) <= Names(a.states)
    ensures LambdaClosed(a, Run(a, cl, s, w))
    decreases |w|
  {
    if |w| > 0 {
      NextSetIsLeast(a, cl, s, [w[0]]);
      RunClosed(a, cl, NextSet(a, cl, s, [w[0]]), w[1..]);
    }
  }

  /** The targets of the transitions of `st` labelled `c`. */
  function StepTargets(st: State, c: string): set<string>
  {
    set t | t in st.transitions && t.symbol == Some(c) :: t.target
  }

  /** Adding one state to the current set adds its own targets. */
  lemma {:induction false} SymbolTargetsAdd(a: FiniteAutomaton, done: set<string>, n: string, c: string)
    requires DistinctNames(a.states) && n in Names(a.states)
    ensures SymbolTargets(a, done + {n}, c) == SymbolTargets(a, done, c) + StepTargets(Name2State(a)[n], c)
  {
    var i :| 0 <= i < |a.states| && a.states[i].name == n;
    assert Name2State(a)[n] == a.states[i];
    forall x | x in SymbolTargets(a, done + {n}, c)
      ensures x in SymbolTargets(a, done, c) + StepTargets(a.states[i], c)
    {
      AddedTargetFrom(a, done, i, c, x);
    }
    forall x | x in StepTargets(a.states[i], c)
      ensures x in SymbolTargets(a, done + {n}, c)
    {
      AddedTargetTo(a, done, i, c, x);
    }
  }

  /** A target of the enlarged set comes from the old set or the added state. */
  lemma {:induction false} AddedTargetFrom(a: FiniteAutomaton, done: set<string>, i: int, c: string, x: string)
    requires DistinctNames(a.states) && 0 <= i < |a.states|
    requires x in SymbolTargets(a, done + {a.states[i].name}, c)
    ensures x in SymbolTargets(a, done, c) || x in StepTargets(a.states[i], c)
  {
    var j, t :| 0 <= j < |a.states| && a.states[j].name in done + {a.states[i].name} && t in a.states[j].transitions
                && t.symbol == Some(c) && t.target == x;
    if a.states[j].name !in done {
      NamesIndexed(a.states);
      assert j == i;
    }
  }

  /** Every target of the added state is a target of the enlarged set. */
  lemma {:induction false} AddedTargetTo(a: FiniteAutomaton, done: set<string>, i: int, c: string, x: string)
    requires 0 <= i < |a.states| && x in StepTargets(a.states[i], c)
    ensures x in SymbolTargets(a, done + {a.states[i].name}, c)
  {
    var t :| t in a.states[i].transitions && t.symbol == Some(c) && t.target == x;
    assert a.states[i].name in done + {a.states[i].name};
  }

  /** Taking `n` out of the states still to visit adds it to those visited. */
  lemma {:induction false} MoveOne(all: set<string>, left: set<string>, n: string)
    requires n in left && left <= all
    ensures all - left + {n} == all - (left - {n})
  {
  }

  /** The loop of `process_symbol` over the current states: the targets of
      their transitions labelled `symbol`. */
  method CollectTargets(a: FiniteAutomaton, current: set<string>, symbol: string) returns (targets: set<string>)
    requires DistinctNames(a.states) && current <= Names(a.states)
    ensures targets == SymbolTargets(a, current, symbol)
  {
    var name2state := Name2State(a);
    targets := {};
    var left := current;
    while left != {}
      invariant left <= current
      invariant targets == SymbolTargets(a, current - left, symbol)
      decreases left
    {
      var n :| n in left;
      SymbolTargetsAdd(a, current - left, n, symbol);
      MoveOne(current, left, n);
      targets := targets + StepTargets(name2state[n], symbol);
      left := left - {n};
    }
    assert current - left == current;
  }

  /** `_complete_lambdas`: the set together with the closures of its members.
      (Python completes its argument in place; here the completed set is
      returned.) */
  method CompleteLambdas(closures: map<string, set<string>>, s: set<string>) returns (completed: set<string>)
    requires s <= closures.Keys
    ensures completed == s + ClosureOfSet(s, closures)
  {
    var added: set<string> := {};
    var left := s;
    while left != {}
      invariant left <= s
      invariant added == ClosureOfSet(s - left, closures)
      decreases left
    {
      var n :| n in left;
      added := added + closures[n];
      left := left - {n};
    }
    completed := s + added;
  }

  /** Completing a set of states gives its closure, the least lambda-closed
      set around it. */
  lemma {:induction false} CompleteLambdasIsClosure(a: FiniteAutomaton, cl: map<string, set<string>>, s: set<string>)
    requires Valid(a) && ClosuresOf(a, cl) && s <= Names(a.states)
    ensures s + ClosureOfSet(s, cl) == ClosureOfSet(s, cl)
    ensures LambdaClosed(a, s + ClosureOfSet(s, cl))
    ensures forall u :: s <= u && LambdaClosed(a, u) ==> s + ClosureOfSet(s, cl) <= u
  {
    ClosureOfSetIsLeast(a, cl, s);
  }

  class FiniteAutomatonEvaluator {
    const automaton: FiniteAutomaton
    const alphabet: set<string>
    const closures: map<string, set<string>>
    var currentStates: set<string>

    ghost predicate Valid()
      reads this
    {
      && Automata.Valid(automaton)
      && alphabet == Alphabet(automaton.states)
      && ClosuresOf(automaton, closures)
      && currentStates <= Names(automaton.states)
    }

    /** The evaluator starts in the lambda-closure of the initial state. */
    constructor (a: FiniteAutomaton)
      requires Automata.Valid(a) && |a.states| > 0
      ensures Valid() && automaton == a
      ensures IsClosureOf(a, a.states[0].name, currentStates)
    {
      var current := {a.states[0].name};
      var cl := ComputeClosures(a);
      automaton := a;
      alphabet := Alphabet(a.states);
      closures := cl;
      assert a.states[0].name in Names(a.states);
      current := CompleteLambdas(cl, current);
      ClosureWithinStates(a, cl, a.states[0].name);
      assert ClosureOfSet({a.states[0].name}, cl) == cl[a.states[0].name];
      currentStates := current;
    }

    /** `process_symbol`: a symbol outside the alphabet raises before any
        change; otherwise the current states become the closure of the
        targets of the transitions labelled with it. */
    method ProcessSymbol(symbol: string) returns (r: Outcome)
      requires Valid()
      modifies this
      ensures Valid()
      ensures symbol !in alphabet ==> r == Failure(InvalidSymbol) && currentStates == old(currentStates)
      ensures symbol in alphabet ==> r == Success && currentStates == NextSet(automaton, closures, old(currentStates), symbol)
    {
      if symbol !in alphabet {
        return Failure(InvalidSymbol);
      }
      var newStates := CollectTargets(automaton, currentStates, symbol);
      SymbolTargetsDefined(automaton, currentStates, symbol);
      newStates := CompleteLambdas(closures, newStates);
      CompleteLambdasIsClosure(automaton, closures, SymbolTargets(automaton, currentStates, symbol));
      NextSetIsLeast(automaton, closures, currentStates, symbol);
      currentStates := newStates;
      r := Success;
    }

    /** `process_string`: the symbols in order, stopping at the first one
        outside the alphabet (the states reached so far are kept). */
    method ProcessString(w: string) returns (r: Outcome)
      requires Valid()
      modifies this
      ensures Valid()
      ensures currentStates == Run(automaton, closures, old(currentStates), w[..ValidPrefix(alphabet, w)])
      ensures r == if ValidPrefix(alphabet, w) == |w| then Success else Failure(InvalidSymbol)
    {
      ghost var start := currentStates;
      var i := 0;
      while i < |w|
        invariant 0 <= i <= ValidPrefix(alphabet, w)
        invariant Valid()
        invariant currentStates == Run(automaton, closures, start, w[..i])
      {
        r := ProcessSymbol([w[i]]);
        if r.Failure? {
          return;
        }
        RunAppend(automaton, closures, start, w[..i], [w[i]]);
        assert w[..i + 1] == w[..i] + [w[i]];
        i := i + 1;
      }
      assert w[..i] == w;
      r := Success;
    }

    /** `is_accepting`: some current state is final. */
    function IsAccepting(): (r: bool)
      reads this
      requires Valid()
      ensures r <==> HasFinal(automaton, currentStates)
    {
      var name2state := Name2State(automaton);
      exists n :: n in currentStates && name2state[n].isFinal
    }

    /** `accepts`: whether `w` is accepted, leaving the current states as
        they were; a symbol outside the alphabet rejects. */
    method Accepts(w: string) returns (accepted: bool)
      requires Valid()
      modifies this
      ensures Valid() && currentStates == old(currentStates)
      ensures accepted == (ValidPrefix(alphabet, w) == |w| && HasFinal(automaton, Run(automaton, closures, currentStates, w)))
    {
      var oldStates := currentStates;
      var r := ProcessString(w);
      if r.Success? {
        accepted := IsAccepting();
        assert w[..|w|] == w;
      } else {
        accepted := false;
      }
      currentStates := oldStates;
    }
  }

  /** `FiniteAutomatonEvaluator(automaton)` as a caller sees it: an
      automaton without states has no `states[0]`, and the source raises
      IndexError there. */
  method NewEvaluator(a: FiniteAutomaton) returns (r: Result<FiniteAutomatonEvaluator>)
    requires Automata.Valid(a)
    ensures r.Err? <==> |a.states| == 0
    ensures r.Err? ==> r.error == NoInitialState
    ensures r.Ok? ==> fresh(r.value) && r.value.Valid() && r.value.automaton == a
    ensures r.Ok? ==> IsClosureOf(a, a.states[0].name, r.value.currentStates)
  {
    if |a.states| == 0 {
      return Err(NoInitialState);
    }
    var evaluator := new FiniteAutomatonEvaluator(a);
    return Ok(evaluator);
  }
}
