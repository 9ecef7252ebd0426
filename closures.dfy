/** Lambda closures: `utils.compute_closures` and `utils.closure_of_set` of
    `p1/automata/automaton.py`, and the one-symbol move that the determinizer
    (`_to_det_get_next_set`) and the evaluator (`process_symbol`) share.
 */
module Closures {
  import opened Automata

  /** Targets of the lambda transitions leaving the states named in `s`. */
  function LambdaTargets(a: FiniteAutomaton, s: set<string>): set<string>
  {
    set i, t | 0 <= i < |a.states| && a.states[i].name in s && t in a.states[i].transitions
                 && IsLambda(t.symbol) :: t.target
  }

  /** Targets of the transitions labelled `c` leaving the states named in `s`. */
  function SymbolTargets(a: FiniteAutomaton, s: set<string>, c: string): set<string>
  {
    set i, t | 0 <= i < |a.states| && a.states[i].name in s && t in a.states[i].transitions
                 && t.symbol == Some(c) :: t.target
  }

  /** No lambda transition leaves `s`. */
  predicate LambdaClosed(a: FiniteAutomaton, s: set<string>)
  {
    LambdaTargets(a, s) <= s
  }

  /** `c` is the lambda-closure of state `n`: the least lambda-closed set
      holding `n`. */
  ghost predicate IsClosureOf(a: FiniteAutomaton, n: string, c: set<string>)
  {
    && n in c
    && LambdaClosed(a, c)
    && forall s :: n in s && LambdaClosed(a, s) ==> c <= s
  }

  /** The dictionary `compute_closures` returns: one entry per state. */
  ghost predicate ClosuresOf(a: FiniteAutomaton, cl: map<string, set<string>>)
  {
    && cl.Keys == Names(a.states)
    && forall n :: n in cl ==> IsClosureOf(a, n, cl[n])
  }

  lemma {:induction false} LambdaTargetsMonotone(a: FiniteAutomaton, s: set<string>, u: set<string>)
    requires s <= u
    ensures LambdaTargets(a, s) <= LambdaTargets(a, u)
  {
  }

  lemma {:induction false} LambdaTargetsUnion(a: FiniteAutomaton, s: set<string>, u: set<string>)
    ensures LambdaTargets(a, s + u) == LambdaTargets(a, s) + LambdaTargets(a, u)
  {
  }

  lemma {:induction false} LambdaTargetsDefined(a: FiniteAutomaton, s: set<string>)
    requires Valid(a)
    ensures LambdaTargets(a, s) <= Names(a.states)
    ensures SymbolTargets(a, s, "") <= Names(a.states)
  {
    forall x | x in LambdaTargets(a, s) ensures x in Targets(a.states) {
      var i, t :| 0 <= i < |a.states| && a.states[i].name in s && t in a.states[i].transitions
                  && IsLambda(t.symbol) && t.target == x;
    }
    forall x | x in SymbolTargets(a, s, "") ensures x in Targets(a.states) {
      var i, t :| 0 <= i < |a.states| && a.states[i].name in s && t in a.states[i].transitions
                  && t.symbol == Some("") && t.target == x;
    }
  }

  lemma {:induction false} SymbolTargetsDefined(a: FiniteAutomaton, s: set<string>, c: string)
    requires Valid(a)
    ensures SymbolTargets(a, s, c) <= Names(a.states)
  {
    forall x | x in SymbolTargets(a, s, c) ensures x in Targets(a.states) {
      var i, t :| 0 <= i < |a.states| && a.states[i].name in s && t in a.states[i].transitions
                  && t.symbol == Some(c) && t.target == x;
    }
  }

  /** The breadth-first expansion `compute_closures` runs for one state. */
  method ClosureOfState(a: FiniteAutomaton, n: string) returns (closure: set<string>)
    requires Valid(a)
    requires n in Names(a.states)
    ensures IsClosureOf(a, n, closure)
    ensures closure <= Names(a.states)
  {
    ghost var all := Names(a.states);
    closure := {};
    var expanding := {n};
    while expanding != {}
      invariant closure <= all && expanding <= all
      invariant closure !! expanding
      invariant n in closure + expanding
      invariant LambdaTargets(a, closure) <= closure + expanding
      invariant forall s :: n in s && LambdaClosed(a, s) ==> closure + expanding <= s
      decreases all - closure
    {
      LambdaTargetsUnion(a, closure, expanding);
      LambdaTargetsDefined(a, expanding);
      forall s | n in s && LambdaClosed(a, s)
        ensures LambdaTargets(a, expanding) <= s
      {
        LambdaTargetsMonotone(a, expanding, s);
      }
      closure := closure + expanding;
      expanding := LambdaTargets(a, expanding) - closure;
    }
  }

  /** `utils.compute_closures`: the closure of every state, keyed by name. */
  method ComputeClosures(a: FiniteAutomaton) returns (cl: map<string, set<string>>)
    requires Valid(a)
    ensures ClosuresOf(a, cl)
  {
    cl := map[];
    for k := 0 to |a.states|
      invariant cl.Keys == set j | 0 <= j < k :: a.states[j].name
      invariant forall n :: n in cl ==> IsClosureOf(a, n, cl[n])
    {
      var c := ClosureOfState(a, a.states[k].name);
      cl := cl[a.states[k].name := c];
    }
  }

  /** Every closure stays inside the automaton's states. */
  lemma {:induction false} ClosureWithinStates(a: FiniteAutomaton, cl: map<string, set<string>>, n: string)
    requires Valid(a) && ClosuresOf(a, cl) && n in cl
    ensures cl[n] <= Names(a.states)
  {
    LambdaTargetsDefined(a, Names(a.states));
  }

  /** `utils.closure_of_set`: the union of the members' closures. */
  function ClosureOfSet(s: set<string>, cl: map<string, set<string>>): set<string>
  {
    set n, m | n in s && n in cl && m in cl[n] :: m
  }

  /** The closure of a set is the least lambda-closed set around it. */
  lemma {:induction false} ClosureOfSetIsLeast(a: FiniteAutomaton, cl: map<string, set<string>>, s: set<string>)
    requires Valid(a) && ClosuresOf(a, cl) && s <= cl.Keys
    ensures s <= ClosureOfSet(s, cl)
    ensures LambdaClosed(a, ClosureOfSet(s, cl))
    ensures ClosureOfSet(s, cl) <= Names(a.states)
    ensures forall u :: s <= u && LambdaClosed(a, u) ==> ClosureOfSet(s, cl) <= u
  {
    var c := ClosureOfSet(s, cl);
    forall n | n in s ensures n in c { assert n in cl[n]; }
    ClosureOfSetClosed(a, cl, s);
    forall x | x in c ensures x in Names(a.states) {
      var n :| n in s && x in cl[n];
      ClosureWithinStates(a, cl, n);
    }
    forall u | s <= u && LambdaClosed(a, u) ensures c <= u {
      ClosureOfSetBelow(a, cl, s, u);
    }
  }

  lemma {:induction false} ClosureOfSetClosed(a: FiniteAutomaton, cl: map<string, set<string>>, s: set<string>)
    requires ClosuresOf(a, cl) && s <= cl.Keys
    ensures LambdaClosed(a, ClosureOfSet(s, cl))
  {
    var c := ClosureOfSet(s, cl);
    forall x | x in LambdaTargets(a, c) ensures x in c {
      var i, t :| 0 <= i < |a.states| && a.states[i].name in c && t in a.states[i].transitions
                  && IsLambda(t.symbol) && t.target == x;
      var n :| n in s && a.states[i].name in cl[n];
      assert x in LambdaTargets(a, cl[n]);
      assert x in cl[n];
    }
  }

  lemma {:induction false} ClosureOfSetBelow(a: FiniteAutomaton, cl: map<string, set<string>>, s: set<string>, u: set<string>)
    requires ClosuresOf(a, cl) && s <= cl.Keys
    requires s <= u && LambdaClosed(a, u)
    ensures ClosureOfSet(s, cl) <= u
  {
    forall x | x in ClosureOfSet(s, cl) ensures x in u {
      var n :| n in s && x in cl[n];
      assert IsClosureOf(a, n, cl[n]);
      assert cl[n] <= u;
    }
  }

  /** Closing a closed set changes nothing. */
  lemma {:induction false} ClosureOfSetIdempotent(a: FiniteAutomaton, cl: map<string, set<string>>, s: set<string>)
    requires Valid(a) && ClosuresOf(a, cl) && s <= cl.Keys
    ensures ClosureOfSet(s, cl) <= cl.Keys
    ensures ClosureOfSet(ClosureOfSet(s, cl), cl) == ClosureOfSet(s, cl)
  {
    var c := ClosureOfSet(s, cl);
    ClosureOfSetIsLeast(a, cl, s);
    ClosureOfSetIsLeast(a, cl, c);
  }

  /** `_to_det_get_next_set` and the body of `process_symbol`: the closure
      of the states reached from `s` by a transition labelled `c`. */
  function NextSet(a: FiniteAutomaton, cl: map<string, set<string>>, s: set<string>, c: string): set<string>
  {
    ClosureOfSet(SymbolTargets(a, s, c), cl)
  }

  /** What `NextSet` computes: the least lambda-closed set holding every
      `c`-successor of `s`. */
  lemma {:induction false} NextSetIsLeast(a: FiniteAutomaton, cl: map<string, set<string>>, s: set<string>, c: string)
    requires Valid(a) && ClosuresOf(a, cl)
    ensures SymbolTargets(a, s, c) <= NextSet(a, cl, s, c)
    ensures NextSet(a, cl, s, c) <= Names(a.states)
    ensures LambdaClosed(a, NextSet(a, cl, s, c))
    ensures forall u :: SymbolTargets(a, s, c) <= u && LambdaClosed(a, u) ==> NextSet(a, cl, s, c) <= u
  {
    SymbolTargetsDefined(a, s, c);
    ClosureOfSetIsLeast(a, cl, SymbolTargets(a, s, c));
  }

  /** An empty set of current states stays empty. */
  lemma {:induction false} NextSetOfEmpty(a: FiniteAutomaton, cl: map<string, set<string>>, c: string)
    ensures NextSet(a, cl, {}, c) == {}
  {
    assert SymbolTargets(a, {}, c) == {};
  }
}
