/** The helpers of `p1/automata/utils.py`: the determinism check, the
    isomorphism test between deterministic automata and the text format
    writer. */
module AutomataUtils {
  import opened Automata
  import Determinizer

  /** No two transitions of `st` carry the same symbol. */
  predicate SymbolsDistinct(st: State)
  {
    forall j, k :: 0 <= j < k < |st.transitions| ==> st.transitions[j].symbol != st.transitions[k].symbol
  }

  /** No lambda (`None`) transition, and at most one transition per state
      and symbol. */
  predicate Deterministic(a: FiniteAutomaton)
  {
    && (forall i, t :: 0 <= i < |a.states| && t in a.states[i].transitions ==> t.symbol.Some?)
    && (forall i :: 0 <= i < |a.states| ==> SymbolsDistinct(a.states[i]))
  }

  /** The `(state, symbol)` pairs of the transitions of `states`. */
  function Origins(states: seq<State>): set<(string, string)>
  {
    set i, t | 0 <= i < |states| && t in states[i].transitions && t.symbol.Some? :: (states[i].name, t.symbol.value)
  }

  /** The pairs of the first `k` transitions of `st`. */
  function OriginsOf(st: State, k: nat): set<(string, string)>
    requires k <= |st.transitions|
  {
    set m | 0 <= m < k && st.transitions[m].symbol.Some? :: (st.name, st.transitions[m].symbol.value)
  }

  /** `is_deterministic`: the `checked_origins` loop. */
  method IsDeterministic(a: FiniteAutomaton) returns (r: bool)
    requires DistinctNames(a.states)
    ensures r == Deterministic(a)
  {
    var checked: set<(string, string)> := {};
    for i := 0 to |a.states|
      invariant forall j, t :: 0 <= j < i && t in a.states[j].transitions ==> t.symbol.Some?
      invariant forall j :: 0 <= j < i ==> SymbolsDistinct(a.states[j])
      invariant checked == Origins(a.states[..i])
    {
      var s := a.states[i];
      ghost var before := checked;
      for k := 0 to |s.transitions|
        invariant forall m :: 0 <= m < k ==> s.transitions[m].symbol.Some?
        invariant forall m1, m2 :: 0 <= m1 < m2 < k ==> s.transitions[m1].symbol != s.transitions[m2].symbol
        invariant checked == before + OriginsOf(s, k)
      {
        var t := s.transitions[k];
        if t.symbol.None? {
          assert t in a.states[i].transitions;
          return false;
        }
        var origin := (s.name, t.symbol.value);
        if origin in checked {
          OriginClash(a, i, k, before);
          return false;
        }
        checked := checked + {origin};
      }
      OriginsExtend(a.states, i);
      assert OriginsOf(s, |s.transitions|) == set t | t in s.transitions && t.symbol.Some? :: (s.name, t.symbol.value) by {
        forall x | x in set t | t in s.transitions && t.symbol.Some? :: (s.name, t.symbol.value)
          ensures x in OriginsOf(s, |s.transitions|)
        {
          var t :| t in s.transitions && t.symbol.Some? && x == (s.name, t.symbol.value);
          var m :| 0 <= m < |s.transitions| && s.transitions[m] == t;
        }
      }
    }
    assert a.states[..|a.states|] == a.states;
    r := true;
  }

  lemma {:induction false} OriginsExtend(states: seq<State>, i: nat)
    requires i < |states|
    ensures Origins(states[..i + 1]) == Origins(states[..i]) + set t | t in states[i].transitions && t.symbol.Some? :: (states[i].name, t.symbol.value)
  {
    var pre, pre1 := states[..i], states[..i + 1];
    forall x | x in Origins(pre1) ensures x in Origins(pre) + set t | t in states[i].transitions && t.symbol.Some? :: (states[i].name, t.symbol.value) {
      var j, t :| 0 <= j < |pre1| && t in pre1[j].transitions && t.symbol.Some? && x == (pre1[j].name, t.symbol.value);
      if j < i { assert pre[j] == pre1[j]; }
    }
    forall x | x in Origins(pre) ensures x in Origins(pre1) {
      var j, t :| 0 <= j < |pre| && t in pre[j].transitions && t.symbol.Some? && x == (pre[j].name, t.symbol.value);
      assert pre1[j] == pre[j];
    }
    forall t | t in states[i].transitions && t.symbol.Some? ensures (states[i].name, t.symbol.value) in Origins(pre1) {
      assert pre1[i] == states[i];
    }
  }

  /** A pair met twice means two transitions of the same state share a symbol. */
  lemma {:induction false} OriginClash(a: FiniteAutomaton, i: nat, k: nat, before: set<(string, string)>)
    requires DistinctNames(a.states) && i < |a.states| && k < |a.states[i].transitions|
    requires a.states[i].transitions[k].symbol.Some?
    requires before == Origins(a.states[..i])
    requires (a.states[i].name, a.states[i].transitions[k].symbol.value) in before + OriginsOf(a.states[i], k)
    ensures !Deterministic(a)
  {
    var s := a.states[i];
    var origin := (s.name, s.transitions[k].symbol.value);
    if origin in before {
      assert false;
    }
    var m :| 0 <= m < k && s.transitions[m].symbol.Some? && origin == (s.name, s.transitions[m].symbol.value);
    assert !SymbolsDistinct(a.states[i]);
  }

  /** The symbol-to-target row of a state whose symbols are distinct. */
  function RowOf(st: State): (row: map<string, string>)
    requires SymbolsDistinct(st) && forall t :: t in st.transitions ==> t.symbol.Some?
    ensures forall t :: t in st.transitions ==> t.symbol.value in row && row[t.symbol.value] == t.target
    ensures forall c :: c in row ==> Transition(Some(c), row[c]) in st.transitions
  {
    map t | t in st.transitions :: t.symbol.value := t.target
  }

  /** The `transition_map` of a deterministic automaton: state name, then
      symbol, to target name. */
  function Delta(a: FiniteAutomaton): (d: map<string, map<string, string>>)
    requires Deterministic(a) && DistinctNames(a.states)
    ensures d.Keys == Names(a.states)
    ensures forall i :: 0 <= i < |a.states| ==> d[a.states[i].name] == RowOf(a.states[i])
  {
    NamesIndexed(a.states);
    map i | 0 <= i < |a.states| :: a.states[i].name := RowOf(a.states[i])
  }

  /** The finality of every state, by name. */
  function Finality(a: FiniteAutomaton): (f: map<string, bool>)
    requires DistinctNames(a.states)
    ensures f.Keys == Names(a.states)
    ensures forall i :: 0 <= i < |a.states| ==> f[a.states[i].name] == a.states[i].isFinal
  {
    NamesIndexed(a.states);
    map i | 0 <= i < |a.states| :: a.states[i].name := a.states[i].isFinal
  }

  /** What the isomorphism search looks at in a deterministic automaton:
      its transition map, the finality of each state and the initial state. */
  datatype View = View(delta: map<string, map<string, string>>, final: map<string, bool>, initial: string)

  /** Every successor of `n` is a state. */
  ghost predicate RowInside(v: View, n: string)
  {
    n in v.delta ==> forall c :: c in v.delta[n] ==> v.delta[n][c] in v.delta
  }

  ghost predicate WellFormed(v: View)
  {
    v.initial in v.delta && v.delta.Keys == v.final.Keys && forall n :: RowInside(v, n)
  }

  function ViewOf(a: FiniteAutomaton): View
    requires Deterministic(a) && DistinctNames(a.states) && |a.states| > 0
  {
    View(Delta(a), Finality(a), a.states[0].name)
  }

  lemma {:induction false} ViewWellFormed(a: FiniteAutomaton)
    requires Valid(a) && Deterministic(a) && |a.states| > 0
    ensures WellFormed(ViewOf(a))
  {
    assert a.states[0].name in Names(a.states);
    forall n ensures RowInside(ViewOf(a), n) {
      if n in Names(a.states) {
        var i :| 0 <= i < |a.states| && a.states[i].name == n;
        RowOfInside(a, i);
      }
    }
  }

  /** The targets of a state's row are states. */
  lemma {:induction false} RowOfInside(a: FiniteAutomaton, i: nat)
    requires Valid(a) && Deterministic(a) && i < |a.states|
    ensures forall c :: c in RowOf(a.states[i]) ==> RowOf(a.states[i])[c] in Names(a.states)
  {
    var row := RowOf(a.states[i]);
    forall c | c in row ensures row[c] in Names(a.states) {
      assert Transition(Some(c), row[c]) in a.states[i].transitions;
      assert row[c] in Targets(a.states);
    }
  }

  /** If `n` is mapped by `m`: finality and the set of symbols agree, and
      every successor of `n` is mapped to the matching successor of `m[n]`. */
  ghost predicate Commutes(v1: View, v2: View, m: map<string, string>, n: string)
  {
    n in m ==>
      && n in v1.delta && n in v1.final && m[n] in v2.delta && m[n] in v2.final
      && v1.final[n] == v2.final[m[n]]
      && v1.delta[n].Keys == v2.delta[m[n]].Keys
      && forall c :: c in v1.delta[n] ==> v1.delta[n][c] in m && m[v1.delta[n][c]] == v2.delta[m[n]][c]
  }

  /** `m` sends the initial state to the initial state and commutes with
      the transitions at every state it maps. */
  ghost predicate Maps(v1: View, v2: View, m: map<string, string>)
  {
    v1.initial in m && m[v1.initial] == v2.initial && forall n :: Commutes(v1, v2, m, n)
  }

  /** A renaming of the states reachable from the initial one that keeps
      finality and the transitions. (Whether it is one-to-one is not part
      of it: the source does not check it.) */
  ghost predicate Homomorphism(a1: FiniteAutomaton, a2: FiniteAutomaton, m: map<string, string>)
    requires Deterministic(a1) && DistinctNames(a1.states)
    requires Deterministic(a2) && DistinctNames(a2.states)
  {
    |a1.states| > 0 && |a2.states| > 0 && Maps(ViewOf(a1), ViewOf(a2), m)
  }

  /** The inner loop of `transition_map`: one state's row. */
  method RowMap(s: State) returns (row: map<string, string>)
    requires SymbolsDistinct(s) && forall t :: t in s.transitions ==> t.symbol.Some?
    ensures row == RowOf(s)
  {
    row := map[];
    for k := 0 to |s.transitions|
      invariant forall m :: 0 <= m < k ==> s.transitions[m].symbol.value in row
      invariant forall c :: c in row ==> exists m :: 0 <= m < k && s.transitions[m] == Transition(Some(c), row[c])
    {
      var t := s.transitions[k];
      row := row[t.symbol.value := t.target];
    }
    forall c | c in row ensures c in RowOf(s) && row[c] == RowOf(s)[c] {
      var m :| 0 <= m < |s.transitions| && s.transitions[m] == Transition(Some(c), row[c]);
    }
    forall c | c in RowOf(s) ensures c in row {
      var t :| t in s.transitions && t.symbol.value == c;
      var m :| 0 <= m < |s.transitions| && s.transitions[m] == t;
    }
  }

  /** The outer loop of `transition_map`. */
  method TransitionMap(a: FiniteAutomaton) returns (tm: map<string, map<string, string>>)
    requires Deterministic(a) && DistinctNames(a.states)
    ensures tm == Delta(a)
  {
    tm := map[];
    for i := 0 to |a.states|
      invariant tm.Keys == Names(a.states[..i])
      invariant forall j :: 0 <= j < i ==> tm[a.states[j].name] == RowOf(a.states[j])
    {
      var s := a.states[i];
      var row := RowMap(s);
      TransitionMapStep(a, tm, i);
      tm := tm[s.name := row];
    }
    assert a.states[..|a.states|] == a.states;
    TransitionMapDone(a, tm);
  }

  /** One more state's row keeps the loop's invariant. */
  lemma {:induction false} TransitionMapStep(a: FiniteAutomaton, tm: map<string, map<string, string>>, i: nat)
    requires Deterministic(a) && DistinctNames(a.states) && i < |a.states|
    requires tm.Keys == Names(a.states[..i])
    requires forall j :: 0 <= j < i ==> tm[a.states[j].name] == RowOf(a.states[j])
    ensures tm[a.states[i].name := RowOf(a.states[i])].Keys == Names(a.states[..i + 1])
    ensures forall j :: 0 <= j < i + 1 ==> tm[a.states[i].name := RowOf(a.states[i])][a.states[j].name] == RowOf(a.states[j])
  {
    NamesSnoc(a.states, i);
  }

  lemma {:induction false} TransitionMapDone(a: FiniteAutomaton, tm: map<string, map<string, string>>)
    requires Deterministic(a) && DistinctNames(a.states)
    requires tm.Keys == Names(a.states)
    requires forall j :: 0 <= j < |a.states| ==> tm[a.states[j].name] == RowOf(a.states[j])
    ensures tm == Delta(a)
  {
    SameByName(a.states, tm, Delta(a));
  }

  /** The `for symbol, final1 in transitions1.items()` loop: `ok` is false as
      soon as a symbol of `t1` is missing from `t2`; otherwise every pair of
      successors has been put at the front of the queue. */
  method PushSuccessors(t1: map<string, string>, t2: map<string, string>, pending: seq<(string, string)>)
    returns (ok: bool, pending': seq<(string, string)>)
    ensures ok <==> t1.Keys <= t2.Keys
    ensures ok ==> forall c :: c in t1 ==> (t1[c], t2[c]) in pending'
    ensures ok ==> forall p :: p in pending' ==> p in pending || exists c :: c in t1 && c in t2 && p == (t1[c], t2[c])
    ensures ok ==> forall p :: p in pending ==> p in pending'
  {
    pending' := pending;
    var left := t1.Keys;
    while left != {}
      invariant left <= t1.Keys
      invariant t1.Keys - left <= t2.Keys
      invariant forall c :: c in t1 && c !in left ==> (t1[c], t2[c]) in pending'
      invariant forall p :: p in pending' ==> p in pending || exists c :: c in t1 && c in t2 && p == (t1[c], t2[c])
      invariant forall p :: p in pending ==> p in pending'
      decreases left
    {
      var symbol :| symbol in left;
      if symbol !in t2 {
        return false, pending';
      }
      pending' := [(t1[symbol], t2[symbol])] + pending';
      left := left - {symbol};
    }
    ok := true;
  }

  /** Same number of states, and index by index the same number of transitions. */
  predicate SameShape(a1: FiniteAutomaton, a2: FiniteAutomaton)
  {
    |a1.states| == |a2.states| && forall i :: 0 <= i < |a1.states| ==> |a1.states[i].transitions| == |a2.states[i].transitions|
  }

  /** Every queued pair is a pair of states. */
  ghost predicate Queued(v1: View, v2: View, pending: seq<(string, string)>)
  {
    forall p :: p in pending ==> p.0 in v1.delta && p.1 in v2.delta
  }

  /** If `n` is mapped by `equiv`, it has been checked, and each of its
      successors is queued or already mapped to the matching successor. */
  ghost predicate Checked(v1: View, v2: View, equiv: map<string, string>, pending: seq<(string, string)>, n: string)
  {
    n in equiv ==>
      && n in v1.delta && n in v1.final && equiv[n] in v2.delta && equiv[n] in v2.final
      && v1.final[n] == v2.final[equiv[n]]
      && v1.delta[n].Keys == v2.delta[equiv[n]].Keys
      && forall c :: c in v1.delta[n] ==>
           || (v1.delta[n][c], v2.delta[equiv[n]][c]) in pending
           || (v1.delta[n][c] in equiv && equiv[v1.delta[n][c]] == v2.delta[equiv[n]][c])
  }

  /** What the `pending`/`equiv_map` loop keeps. */
  ghost predicate Explored(v1: View, v2: View, equiv: map<string, string>, pending: seq<(string, string)>)
  {
    Queued(v1, v2, pending) && forall n :: Checked(v1, v2, equiv, pending, n)
  }

  /** Every mapping that `Maps` agrees with `equiv` and with every queued pair. */
  ghost predicate Forced(v1: View, v2: View, equiv: map<string, string>, pending: seq<(string, string)>)
  {
    forall w :: Maps(v1, v2, w) ==>
      && (forall n :: n in equiv ==> n in w && w[n] == equiv[n])
      && (forall p :: p in pending ==> p.0 in w && w[p.0] == p.1)
  }

  /** A popped pair whose first state is already mapped to the second:
      one state at a time. */
  lemma {:induction false} CheckedSkip(v1: View, v2: View, equiv: map<string, string>,
                    pending: seq<(string, string)>, x: string, y: string, n: string)
    requires Checked(v1, v2, equiv, pending + [(x, y)], n)
    requires x in equiv && equiv[x] == y
    ensures Checked(v1, v2, equiv, pending, n)
  {
    if n in equiv {
      forall c | c in v1.delta[n]
        ensures || (v1.delta[n][c], v2.delta[equiv[n]][c]) in pending
                || (v1.delta[n][c] in equiv && equiv[v1.delta[n][c]] == v2.delta[equiv[n]][c])
      {
        var p := (v1.delta[n][c], v2.delta[equiv[n]][c]);
        if p !in pending && p in pending + [(x, y)] {
          assert p == (x, y);
        }
      }
    }
  }

  /** A popped pair whose first state is already mapped to the second. */
  lemma {:induction false} ExploredSkip(v1: View, v2: View, equiv: map<string, string>,
                     pending: seq<(string, string)>, x: string, y: string)
    requires Explored(v1, v2, equiv, pending + [(x, y)]) && Forced(v1, v2, equiv, pending + [(x, y)])
    requires x in equiv && equiv[x] == y
    ensures Explored(v1, v2, equiv, pending) && Forced(v1, v2, equiv, pending)
  {
    forall p | p in pending ensures p in pending + [(x, y)] { }
    forall n ensures Checked(v1, v2, equiv, pending, n) {
      CheckedSkip(v1, v2, equiv, pending, x, y, n);
    }
  }

  /** The new pair's successors are queued: one state at a time. */
  lemma {:induction false} CheckedAdd(v1: View, v2: View, equiv: map<string, string>,
                   pending: seq<(string, string)>, x: string, y: string, pending': seq<(string, string)>, n: string)
    requires Checked(v1, v2, equiv, pending + [(x, y)], n)
    requires x !in equiv && x in v1.delta && x in v1.final && y in v2.delta && y in v2.final
    requires v1.final[x] == v2.final[y] && v1.delta[x].Keys == v2.delta[y].Keys
    requires forall c :: c in v1.delta[x] ==> (v1.delta[x][c], v2.delta[y][c]) in pending'
    requires forall p :: p in pending ==> p in pending'
    ensures Checked(v1, v2, equiv[x := y], pending', n)
  {
    var e := equiv[x := y];
    if n != x && n in e {
      forall c | c in v1.delta[n]
        ensures || (v1.delta[n][c], v2.delta[e[n]][c]) in pending'
                || (v1.delta[n][c] in e && e[v1.delta[n][c]] == v2.delta[e[n]][c])
      {
        var p := (v1.delta[n][c], v2.delta[equiv[n]][c]);
        if p in pending + [(x, y)] && p != (x, y) {
          assert p in pending;
        }
      }
    }
  }

  /** Every mapping that `Maps` sends `x` to `y` and agrees with `x`'s checks. */
  lemma {:induction false} Agrees(v1: View, v2: View, equiv: map<string, string>,
               pending: seq<(string, string)>, x: string, y: string, w: map<string, string>)
    requires Forced(v1, v2, equiv, pending + [(x, y)]) && Maps(v1, v2, w)
    ensures x in w && w[x] == y
    ensures x in equiv ==> equiv[x] == y
    ensures x in v1.final && y in v2.final && v1.final[x] == v2.final[y]
    ensures x in v1.delta && y in v2.delta && v1.delta[x].Keys == v2.delta[y].Keys && |v1.delta[x]| == |v2.delta[y]|
    ensures forall c :: c in v1.delta[x] ==> v1.delta[x][c] in w && w[v1.delta[x][c]] == v2.delta[y][c]
  {
    assert (x, y) in pending + [(x, y)];
    assert Commutes(v1, v2, w, x);
    assert |v1.delta[x].Keys| == |v2.delta[y].Keys|;
  }

  /** A popped pair whose first state is new: it is mapped, checked, and
      its successors queued. */
  lemma {:induction false} ExploredAdd(v1: View, v2: View, equiv: map<string, string>,
                    pending: seq<(string, string)>, x: string, y: string, pending': seq<(string, string)>)
    requires WellFormed(v1) && WellFormed(v2)
    requires Explored(v1, v2, equiv, pending + [(x, y)]) && Forced(v1, v2, equiv, pending + [(x, y)])
    requires x !in equiv && x in v1.delta && y in v2.delta
    requires v1.final[x] == v2.final[y] && v1.delta[x].Keys == v2.delta[y].Keys
    requires forall c :: c in v1.delta[x] ==> (v1.delta[x][c], v2.delta[y][c]) in pending'
    requires forall p :: p in pending' ==> p in pending || exists c :: c in v1.delta[x] && c in v2.delta[y] && p == (v1.delta[x][c], v2.delta[y][c])
    requires forall p :: p in pending ==> p in pending'
    ensures Explored(v1, v2, equiv[x := y], pending')
    ensures Forced(v1, v2, equiv[x := y], pending')
  {
    var e := equiv[x := y];
    var popped := pending + [(x, y)];
    assert RowInside(v1, x) && RowInside(v2, y);
    forall p | p in pending' ensures p.0 in v1.delta && p.1 in v2.delta {
      if p !in pending {
        var c :| c in v1.delta[x] && c in v2.delta[y] && p == (v1.delta[x][c], v2.delta[y][c]);
      } else {
        assert p in popped;
      }
    }
    forall n ensures Checked(v1, v2, e, pending', n) {
      CheckedAdd(v1, v2, equiv, pending, x, y, pending', n);
    }
    forall w | Maps(v1, v2, w)
      ensures (forall n :: n in e ==> n in w && w[n] == e[n])
      ensures (forall p :: p in pending' ==> p.0 in w && w[p.0] == p.1)
    {
      Agrees(v1, v2, equiv, pending, x, y, w);
      forall p | p in pending' ensures p.0 in w && w[p.0] == p.1 {
        if p !in pending {
          var c :| c in v1.delta[x] && c in v2.delta[y] && p == (v1.delta[x][c], v2.delta[y][c]);
        } else {
          assert p in popped;
        }
      }
    }
  }

  /** A queued pair that fails a check rules out every mapping. */
  lemma {:induction false} Refuted(v1: View, v2: View, equiv: map<string, string>,
                pending: seq<(string, string)>, x: string, y: string)
    requires Forced(v1, v2, equiv, pending + [(x, y)])
    requires x in v1.delta && x in v1.final && y in v2.delta && y in v2.final
    requires || v1.final[x] != v2.final[y]
             || (x in equiv && equiv[x] != y)
             || |v1.delta[x]| != |v2.delta[y]|
             || !(v1.delta[x].Keys <= v2.delta[y].Keys)
    ensures forall w :: !Maps(v1, v2, w)
  {
    forall w ensures !Maps(v1, v2, w) {
      if Maps(v1, v2, w) {
        Agrees(v1, v2, equiv, pending, x, y, w);
      }
    }
  }

  /** An empty queue leaves a mapping. */
  lemma {:induction false} ExploredDone(v1: View, v2: View, equiv: map<string, string>)
    requires Explored(v1, v2, equiv, [])
    requires v1.initial in equiv && equiv[v1.initial] == v2.initial
    ensures Maps(v1, v2, equiv)
  {
    forall n ensures Commutes(v1, v2, equiv, n) {
      assert Checked(v1, v2, equiv, [], n);
    }
  }

  /** The `while pending` loop, from the pair of initial states. */
  method Explore(v1: View, v2: View) returns (r: Option<map<string, string>>)
    requires WellFormed(v1) && WellFormed(v2)
    ensures r.Some? ==> Maps(v1, v2, r.value)
    ensures r.None? ==> forall w :: !Maps(v1, v2, w)
  {
    var equiv: map<string, string> := map[];
    var pending := [(v1.initial, v2.initial)];
    while pending != []
      invariant Explored(v1, v2, equiv, pending)
      invariant Forced(v1, v2, equiv, pending)
      invariant equiv == map[] ==> pending == [(v1.initial, v2.initial)]
      invariant equiv != map[] ==> v1.initial in equiv && equiv[v1.initial] == v2.initial
      decreases v1.delta.Keys - equiv.Keys, |pending|
    {
      var (state1, state2) := pending[|pending| - 1];
      ghost var popped := pending;
      pending := pending[..|pending| - 1];
      assert popped == pending + [(state1, state2)];
      assert (state1, state2) in popped;
      if v1.final[state1] != v2.final[state2] {
        Refuted(v1, v2, equiv, pending, state1, state2);
        return None;
      }
      if state1 in equiv {
        if equiv[state1] != state2 {
          Refuted(v1, v2, equiv, pending, state1, state2);
          return None;
        }
        ExploredSkip(v1, v2, equiv, pending, state1, state2);
      } else {
        ghost var left := v1.delta.Keys - equiv.Keys;
        assert state1 in left;
        var t1, t2 := v1.delta[state1], v2.delta[state2];
        if |t1| != |t2| {
          Refuted(v1, v2, equiv, pending, state1, state2);
          return None;
        }
        var ok, pending' := PushSuccessors(t1, t2, pending);
        if !ok {
          Refuted(v1, v2, equiv, pending, state1, state2);
          return None;
        }
        KeysEqual(t1.Keys, t2.Keys);
        ExploredAdd(v1, v2, equiv, pending, state1, state2, pending');
        equiv, pending := equiv[state1 := state2], pending';
        assert v1.delta.Keys - equiv.Keys < left;
      }
    }
    ExploredDone(v1, v2, equiv);
    return Some(equiv);
  }

  /** A subset of the same size is the whole set. */
  lemma {:induction false} KeysEqual<T>(s1: set<T>, s2: set<T>)
    requires s1 <= s2 && |s1| == |s2|
    ensures s1 == s2
  {
    assert |s2 - s1| == |s2| - |s1|;
  }

  /** `deterministic_automata_isomorphism`. */
  method DeterministicAutomataIsomorphism(a1: FiniteAutomaton, a2: FiniteAutomaton)
    returns (r: Result<Option<map<string, string>>>)
    requires Valid(a1) && Valid(a2)
    ensures r == Err(NotDeterministic) <==> !Deterministic(a1) || !Deterministic(a2)
    ensures r == Err(NoInitialState) <==> Deterministic(a1) && Deterministic(a2) && |a1.states| == 0 && |a2.states| == 0
    ensures Deterministic(a1) && Deterministic(a2) && !SameShape(a1, a2) ==> r == Ok(None)
    ensures r.Ok? && r.value.Some? ==> Deterministic(a1) && Deterministic(a2) && Homomorphism(a1, a2, r.value.value)
    ensures r == Ok(None) && Deterministic(a1) && Deterministic(a2) && SameShape(a1, a2) ==>
              forall w :: !Homomorphism(a1, a2, w)
  {
    var det1 := IsDeterministic(a1);
    var det2 := IsDeterministic(a2);
    if !det1 || !det2 {
      return Err(NotDeterministic);
    }
    if |a1.states| != |a2.states| {
      return Ok(None);
    }
    for i := 0 to |a1.states|
      invariant forall j :: 0 <= j < i ==> |a1.states[j].transitions| == |a2.states[j].transitions|
    {
      if |a1.states[i].transitions| != |a2.states[i].transitions| {
        return Ok(None);
      }
    }
    if |a1.states| == 0 {
      return Err(NoInitialState);
    }
    var d1 := TransitionMap(a1);
    var d2 := TransitionMap(a2);
    ViewWellFormed(a1);
    ViewWellFormed(a2);
    var found := Explore(View(d1, Finality(a1), a1.states[0].name), View(d2, Finality(a2), a2.states[0].name));
    return Ok(found);
  }

  /** An automaton total over an alphabet, as `to_deterministic` builds
      it, passes `is_deterministic`. */
  lemma {:induction false} TotalIsDeterministic(a: FiniteAutomaton, alphabet: set<string>)
    requires forall i :: 0 <= i < |a.states| ==> Determinizer.TotalOver(a.states[i].transitions, alphabet)
    ensures Deterministic(a)
  {
    forall i | 0 <= i < |a.states| ensures SymbolsDistinct(a.states[i]) {
      assert Determinizer.TotalOver(a.states[i].transitions, alphabet);
    }
  }

  /** `f"\t{s.name}{' final' if s.is_final else ''}\n"`. */
  function StateLine(s: State): string
  {
    "\t" + s.name + (if s.isFinal then " final" else "") + "\n"
  }

  /** `f"\t{s.name} -{symbol}-> {t.state}\n"`, with an empty symbol for lambda. */
  function TransitionLine(name: string, t: Transition): string
  {
    "\t" + name + " -" + (if t.symbol.Some? then t.symbol.value else "") + "-> " + t.target + "\n"
  }

  function StateLines(states: seq<State>): string
  {
    if states == [] then "" else StateLine(states[0]) + StateLines(states[1..])
  }

  function TransitionLinesOf(name: string, ts: seq<Transition>): string
  {
    if ts == [] then "" else TransitionLine(name, ts[0]) + TransitionLinesOf(name, ts[1..])
  }

  function TransitionLines(states: seq<State>): string
  {
    if states == [] then "" else TransitionLinesOf(states[0].name, states[0].transitions) + TransitionLines(states[1..])
  }

  /** `AutomataFormat.write`: the header, a line per state, a blank line and
      a line per transition. */
  function Write(a: FiniteAutomaton): (text: string)
    ensures |text| >= 12 && text[..11] == "Automaton:\n"
  {
    var text := "Automaton:\n" + StateLines(a.states) + "\n" + TransitionLines(a.states);
    assert text[..11] == "Automaton:\n";
    text
  }

  /** The number of line breaks in `s`. */
  function Newlines(s: string): nat
  {
    if s == [] then 0 else (if s[0] == '\n' then 1 else 0) + Newlines(s[1..])
  }

  lemma {:induction false} NewlinesAppend(s: string, t: string)
    ensures Newlines(s + t) == Newlines(s) + Newlines(t)
    decreases |s|
  {
    if s == [] {
      assert s + t == t;
    } else {
      assert (s + t)[0] == s[0] && (s + t)[1..] == s[1..] + t;
      NewlinesAppend(s[1..], t);
    }
  }

  lemma {:induction false} NoNewlines(s: string)
    requires '\n' !in s
    ensures Newlines(s) == 0
    decreases |s|
  {
    if s != [] {
      assert forall k :: 0 <= k < |s[1..]| ==> s[1..][k] == s[k + 1];
      NoNewlines(s[1..]);
    }
  }

  /** No line break inside a name or a symbol. */
  predicate OneLineNames(states: seq<State>)
  {
    forall i :: 0 <= i < |states| ==>
      && '\n' !in states[i].name
      && forall t :: t in states[i].transitions ==> '\n' !in t.target && (t.symbol.Some? ==> '\n' !in t.symbol.value)
  }

  function TransitionCount(states: seq<State>): nat
  {
    if states == [] then 0 else |states[0].transitions| + TransitionCount(states[1..])
  }

  lemma {:induction false} LineNewlines(s: State, name: string, t: Transition)
    requires '\n' !in s.name && '\n' !in name && '\n' !in t.target && (t.symbol.Some? ==> '\n' !in t.symbol.value)
    ensures Newlines(StateLine(s)) == 1 && Newlines(TransitionLine(name, t)) == 1
  {
    var fin := if s.isFinal then " final" else "";
    NoNewlines("\t" + s.name + fin);
    NewlinesAppend("\t" + s.name + fin, "\n");
    var sym := if t.symbol.Some? then t.symbol.value else "";
    var body := "\t" + name + " -" + sym + "-> " + t.target;
    NoNewlines(body);
    NewlinesAppend(body, "\n");
  }

  lemma {:induction false} TransitionLinesOfNewlines(name: string, ts: seq<Transition>)
    requires '\n' !in name
    requires forall t :: t in ts ==> '\n' !in t.target && (t.symbol.Some? ==> '\n' !in t.symbol.value)
    ensures Newlines(TransitionLinesOf(name, ts)) == |ts|
    decreases |ts|
  {
    if ts != [] {
      LineNewlines(State(name, false, []), name, ts[0]);
      TransitionLinesOfNewlines(name, ts[1..]);
      NewlinesAppend(TransitionLine(name, ts[0]), TransitionLinesOf(name, ts[1..]));
    }
  }

  lemma {:induction false} StateLinesNewlines(states: seq<State>)
    requires OneLineNames(states)
    ensures Newlines(StateLines(states)) == |states|
    ensures Newlines(TransitionLines(states)) == TransitionCount(states)
    decreases |states|
  {
    if states != [] {
      assert OneLineNames(states[1..]) by {
        forall i | 0 <= i < |states[1..]| ensures states[1..][i] == states[i + 1] { }
      }
      StateLinesNewlines(states[1..]);
      LineNewlines(states[0], states[0].name, Transition(None, ""));
      NewlinesAppend(StateLine(states[0]), StateLines(states[1..]));
      TransitionLinesOfNewlines(states[0].name, states[0].transitions);
      NewlinesAppend(TransitionLinesOf(states[0].name, states[0].transitions), TransitionLines(states[1..]));
    }
  }

  /** With no line break inside a name or symbol, the text has the header
      line, one line per state, the blank line and one line per transition. */
  lemma {:induction false} WriteLineCount(a: FiniteAutomaton)
    requires OneLineNames(a.states)
    ensures Newlines(Write(a)) == 2 + |a.states| + TransitionCount(a.states)
  {
    StateLinesNewlines(a.states);
    var head := "Automaton:\n";
    assert head == "Automaton:" + "\n";
    NoNewlines("Automaton:");
    assert Newlines("\n") == 1;
    NewlinesAppend("Automaton:", "\n");
    NewlinesAppend(head, StateLines(a.states));
    NewlinesAppend(head + StateLines(a.states), "\n");
    NewlinesAppend(head + StateLines(a.states) + "\n", TransitionLines(a.states));
  }
}
