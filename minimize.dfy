/** `FiniteAutomaton.to_minimized` of `p1/automata/automaton.py`: the
    accessible states, Moore's partition refinement and the quotient
    automaton.  A block of the partition is the set of its state names. */
module Minimizer {
  import opened Automata
  import opened StateNames

  /** The target of the first transition of `ts` labelled `c`. */
  function FirstTarget(ts: seq<Transition>, c: string): (r: Option<string>)
    ensures r.Some? ==> Transition(Some(c), r.value) in ts
    ensures r.None? <==> forall t :: t in ts ==> t.symbol != Some(c)
    decreases |ts|
  {
    if ts == [] then None
    else if ts[0].symbol == Some(c) then Some(ts[0].target)
    else FirstTarget(ts[1..], c)
  }

  /** No transition before the one `FirstTarget` picks is labelled `c`. */
  lemma {:induction false} FirstTargetIsFirst(ts: seq<Transition>, c: string)
    requires FirstTarget(ts, c).Some?
    ensures exists i :: 0 <= i < |ts| && ts[i] == Transition(Some(c), FirstTarget(ts, c).value) &&
                        forall j :: 0 <= j < i ==> ts[j].symbol != Some(c)
    decreases |ts|
  {
    if ts[0].symbol != Some(c) {
      FirstTargetIsFirst(ts[1..], c);
      var i :| 0 <= i < |ts[1..]| && ts[1..][i] == Transition(Some(c), FirstTarget(ts, c).value) &&
               forall j :: 0 <= j < i ==> ts[1..][j].symbol != Some(c);
      assert ts[i + 1] == ts[1..][i];
      forall j | 0 <= j < i + 1 ensures ts[j].symbol != Some(c) {
        if j > 0 { assert ts[j] == ts[1..][j - 1]; }
      }
    } else {
      assert ts[0] == Transition(Some(c), FirstTarget(ts, c).value);
    }
  }

  /** `_transition_function`: a missing transition is a `DFAError`. */
  method TransitionFunction(st: State, c: string) returns (r: Result<string>)
    ensures r.Ok? <==> FirstTarget(st.transitions, c).Some?
    ensures r.Ok? ==> r.value == FirstTarget(st.transitions, c).value
    ensures r.Err? ==> r.error == MissingTransition
  {
    var ts := st.transitions;
    for i := 0 to |ts|
      invariant FirstTarget(ts, c) == FirstTarget(ts[i..], c)
    {
      assert ts[i..][1..] == ts[i + 1..];
      if ts[i].symbol == Some(c) {
        return Ok(ts[i].target);
      }
    }
    return Err(MissingTransition);
  }

  /** Some block of `p` holds `n`. */
  predicate InSome(p: set<set<string>>, n: string)
  {
    exists b :: b in p && n in b
  }

  predicate SameBlock(p: set<set<string>>, x: string, y: string)
  {
    exists b :: b in p && x in b && y in b
  }

  predicate Disjoint(p: set<set<string>>)
  {
    forall b1, b2 :: b1 in p && b2 in p && b1 != b2 ==> b1 * b2 == {}
  }

  /** `utils.get_equivalence_class`: a block holding `n`, or `PartitionError`. */
  method GetEquivalenceClass(n: string, p: set<set<string>>) returns (r: Result<set<string>>)
    ensures r.Ok? <==> InSome(p, n)
    ensures r.Ok? ==> r.value in p && n in r.value
    ensures r.Err? ==> r.error == PartitionError
  {
    var rest := p;
    while rest != {}
      invariant rest <= p
      invariant forall b :: b in p - rest ==> n !in b
      decreases rest
    {
      var b :| b in rest;
      if n in b {
        return Ok(b);
      }
      rest := rest - {b};
    }
    return Err(PartitionError);
  }

  /** On `c`, both states have a transition, and the targets share a block. */
  predicate Agree(m: map<string, State>, p: set<set<string>>, s1: string, s2: string, c: string)
    requires s1 in m && s2 in m
  {
    var t1, t2 := FirstTarget(m[s1].transitions, c), FirstTarget(m[s2].transitions, c);
    t1.Some? && t2.Some? && SameBlock(p, t1.value, t2.value)
  }

  /** Not distinguishable by `p`: they agree on every symbol. */
  predicate Equivalent(m: map<string, State>, p: set<set<string>>, alphabet: set<string>, s1: string, s2: string)
    requires s1 in m && s2 in m
  {
    forall c :: c in alphabet ==> Agree(m, p, s1, s2, c)
  }

  /** Every symbol leads from `s` into some block. */
  predicate Defined(m: map<string, State>, p: set<set<string>>, alphabet: set<string>, s: string)
    requires s in m
  {
    forall c :: c in alphabet ==> FirstTarget(m[s].transitions, c).Some? && InSome(p, FirstTarget(m[s].transitions, c).value)
  }

  /** `_distinguisable`: the symbols are tried in any order; the first one
      whose targets fall in different blocks answers `True`, and a missing
      transition or a target outside the partition raises. */
  method Distinguishable(m: map<string, State>, s1: string, s2: string, p: set<set<string>>, alphabet: set<string>)
    returns (r: Result<bool>)
    requires s1 in m && s2 in m
    requires Disjoint(p)
    ensures r == Ok(false) <==> Equivalent(m, p, alphabet, s1, s2)
    ensures r == Ok(true) ==> exists c :: c in alphabet && Defined1(m, p, s1, c) && !Agree(m, p, s1, s2, c)
    ensures Defined(m, p, alphabet, s1) && Defined(m, p, alphabet, s2) ==> r.Ok?
    ensures r.Err? ==> !Defined(m, p, alphabet, s1) || !Defined(m, p, alphabet, s2)
    ensures r.Err? && Covered(m, p, s1) ==> r.error == MissingTransition
  {
    var todo := alphabet;
    while todo != {}
      invariant todo <= alphabet
      invariant forall c :: c in alphabet - todo ==> Agree(m, p, s1, s2, c)
      decreases todo
    {
      var c :| c in todo;
      var n1 := TransitionFunction(m[s1], c);
      if n1.Err? {
        return Err(n1.error);
      }
      var n2 := TransitionFunction(m[s2], c);
      if n2.Err? {
        return Err(n2.error);
      }
      var block := GetEquivalenceClass(n1.value, p);
      if block.Err? {
        if Covered(m, p, s1) {
          CoveredTarget(m, p, s1, c);
        }
        return Err(block.error);
      }
      if n2.value !in block.value {
        OtherBlock(p, block.value, n1.value, n2.value);
        assert !Agree(m, p, s1, s2, c);
        return Ok(true);
      }
      todo := todo - {c};
    }
    return Ok(false);
  }

  /** In a partition, a block holding `x` but not `y` is the only block
      holding `x`. */
  lemma {:induction false} OtherBlock(p: set<set<string>>, b: set<string>, x: string, y: string)
    requires Disjoint(p) && b in p && x in b && y !in b
    ensures !SameBlock(p, x, y)
  {
    forall b2 | b2 in p && x in b2 ensures y !in b2 {
      assert x in b * b2;
      assert b2 == b;
    }
  }

  /** On `c`, `s` has a transition into some block. */
  predicate Defined1(m: map<string, State>, p: set<set<string>>, s: string, c: string)
    requires s in m
  {
    FirstTarget(m[s].transitions, c).Some? && InSome(p, FirstTarget(m[s].transitions, c).value)
  }

  /** Every transition of `s` leads into some block. */
  predicate Covered(m: map<string, State>, p: set<set<string>>, s: string)
    requires s in m
  {
    forall t :: t in m[s].transitions ==> InSome(p, t.target)
  }

  lemma {:induction false} AgreeSelf(m: map<string, State>, p: set<set<string>>, s: string, c: string)
    requires s in m && Defined1(m, p, s, c)
    ensures Agree(m, p, s, s, c)
  {
    var t := FirstTarget(m[s].transitions, c).value;
    var b :| b in p && t in b;
    assert b in p && t in b && t in b;
  }

  /** A state is equivalent to itself exactly when all its transitions exist
      and lead into the partition. */
  lemma {:induction false} EquivalentSelf(m: map<string, State>, p: set<set<string>>, alphabet: set<string>, s: string)
    requires s in m
    ensures Equivalent(m, p, alphabet, s, s) <==> Defined(m, p, alphabet, s)
  {
    if Defined(m, p, alphabet, s) {
      forall c | c in alphabet ensures Agree(m, p, s, s, c) {
        AgreeSelf(m, p, s, c);
      }
    }
    if Equivalent(m, p, alphabet, s, s) {
      forall c | c in alphabet ensures Defined1(m, p, s, c) {
        assert Agree(m, p, s, s, c);
      }
    }
  }

  lemma {:induction false} EquivalentDefined(m: map<string, State>, p: set<set<string>>, alphabet: set<string>, s1: string, s2: string)
    requires s1 in m && s2 in m && Equivalent(m, p, alphabet, s1, s2)
    ensures Defined(m, p, alphabet, s1) && Defined(m, p, alphabet, s2)
  {
    forall c | c in alphabet ensures Defined1(m, p, s1, c) && Defined1(m, p, s2, c) {
      assert Agree(m, p, s1, s2, c);
    }
  }

  lemma {:induction false} EquivalentSymmetric(m: map<string, State>, p: set<set<string>>, alphabet: set<string>, s1: string, s2: string)
    requires s1 in m && s2 in m && Equivalent(m, p, alphabet, s1, s2)
    ensures Equivalent(m, p, alphabet, s2, s1)
  {
    forall c | c in alphabet ensures Agree(m, p, s2, s1, c) {
      assert Agree(m, p, s1, s2, c);
    }
  }

  /** Sharing a block is transitive in a partition. */
  lemma {:induction false} SameBlockTransitive(p: set<set<string>>, x: string, y: string, z: string)
    requires Disjoint(p) && SameBlock(p, x, y) && SameBlock(p, y, z)
    ensures SameBlock(p, x, z)
  {
    var b1 :| b1 in p && x in b1 && y in b1;
    var b2 :| b2 in p && y in b2 && z in b2;
    assert y in b1 * b2;
    assert b1 == b2;
  }

  lemma {:induction false} EquivalentTransitive(m: map<string, State>, p: set<set<string>>, alphabet: set<string>,
                                                s1: string, s2: string, s3: string)
    requires s1 in m && s2 in m && s3 in m && Disjoint(p)
    requires Equivalent(m, p, alphabet, s1, s2) && Equivalent(m, p, alphabet, s2, s3)
    ensures Equivalent(m, p, alphabet, s1, s3)
  {
    forall c | c in alphabet ensures Agree(m, p, s1, s3, c) {
      assert Agree(m, p, s1, s2, c) && Agree(m, p, s2, s3, c);
      SameBlockTransitive(p, FirstTarget(m[s1].transitions, c).value, FirstTarget(m[s2].transitions, c).value,
                          FirstTarget(m[s3].transitions, c).value);
    }
  }

  /** `Distinguishable(s, s)` never answers `True`. */
  lemma {:induction false} NotDistinguishableFromSelf(m: map<string, State>, p: set<set<string>>, alphabet: set<string>, s: string)
    requires s in m
    ensures !exists c :: c in alphabet && Defined1(m, p, s, c) && !Agree(m, p, s, s, c)
  {
    forall c | c in alphabet && Defined1(m, p, s, c) ensures Agree(m, p, s, s, c) {
      AgreeSelf(m, p, s, c);
    }
  }

  /** Covered states raise only `MissingTransition` in `Distinguishable`. */
  lemma {:induction false} CoveredTarget(m: map<string, State>, p: set<set<string>>, s: string, c: string)
    requires s in m && Covered(m, p, s) && FirstTarget(m[s].transitions, c).Some?
    ensures InSome(p, FirstTarget(m[s].transitions, c).value)
  {
    assert Transition(Some(c), FirstTarget(m[s].transitions, c).value) in m[s].transitions;
  }

  /** The comprehension of `to_minimized` that collects the states of
      `group` not distinguishable from `cur`; the states are tried in any
      order and the first exception propagates. */
  method EquivalentTo(m: map<string, State>, cur: string, group: set<string>, p: set<set<string>>, alphabet: set<string>)
    returns (r: Result<set<string>>)
    requires cur in m && group <= m.Keys && Disjoint(p)
    ensures r.Ok? ==> forall s :: s in r.value <==> s in group && Equivalent(m, p, alphabet, cur, s)
    ensures r.Ok? && cur in group ==> cur in r.value
    ensures Defined(m, p, alphabet, cur) && (forall s :: s in group ==> Defined(m, p, alphabet, s)) ==> r.Ok?
    ensures r.Err? ==> !Defined(m, p, alphabet, cur) || exists s :: s in group && !Defined(m, p, alphabet, s)
    ensures r.Err? && Covered(m, p, cur) ==> r.error == MissingTransition
  {
    var todo := group;
    var cls: set<string> := {};
    while todo != {}
      invariant todo <= group
      invariant forall s :: s in cls <==> s in group - todo && Equivalent(m, p, alphabet, cur, s)
      invariant cur in group - todo ==> cur in cls
      decreases todo
    {
      var s :| s in todo;
      var d := Distinguishable(m, cur, s, p, alphabet);
      if d.Err? {
        return Err(d.error);
      }
      if s == cur {
        NotDistinguishableFromSelf(m, p, alphabet, s);
      }
      if !d.value {
        cls := cls + {s};
      }
      todo := todo - {s};
    }
    return Ok(cls);
  }

  /** The blocks split off `block` so far; `rest` is still to be split. */
  ghost predicate PartsSoFar(m: map<string, State>, p: set<set<string>>, alphabet: set<string>,
                             block: set<string>, rest: set<string>, parts: set<set<string>>)
    requires block <= m.Keys
  {
    && rest <= block
    && (forall b :: b in parts ==> b != {} && b <= block - rest)
    && (forall s :: s in block - rest ==> InSome(parts, s) && Defined(m, p, alphabet, s))
    && Disjoint(parts)
    && (forall x, y :: x in block - rest && y in block - rest ==>
          (SameBlock(parts, x, y) <==> Equivalent(m, p, alphabet, x, y)))
    && (forall x, y :: x in block - rest && y in rest ==> !Equivalent(m, p, alphabet, x, y))
  }

  /** The class of `cur`: the states of `rest` equivalent to it. */
  ghost predicate ClassOf(m: map<string, State>, p: set<set<string>>, alphabet: set<string>,
                          cur: string, rest: set<string>, cls: set<string>)
    requires cur in m && rest <= m.Keys
  {
    cur in cls && forall s :: s in cls <==> s in rest && Equivalent(m, p, alphabet, cur, s)
  }

  lemma {:induction false} PartsStepBlocks(parts: set<set<string>>, block: set<string>, rest: set<string>,
                                           cur: string, cls: set<string>)
    requires rest <= block && cur in cls && cls <= rest
    requires forall b :: b in parts ==> b != {} && b <= block - rest
    ensures forall b :: b in parts + {cls} ==> b != {} && b <= block - (rest - cls)
  {
  }

  lemma {:induction false} PartsStepCover(m: map<string, State>, p: set<set<string>>, alphabet: set<string>,
                                          block: set<string>, rest: set<string>, parts: set<set<string>>,
                                          cur: string, cls: set<string>)
    requires block <= m.Keys && cur in rest && PartsSoFar(m, p, alphabet, block, rest, parts)
    requires ClassOf(m, p, alphabet, cur, rest, cls)
    ensures forall s :: s in block - (rest - cls) ==> InSome(parts + {cls}, s) && Defined(m, p, alphabet, s)
  {
    forall s | s in block - (rest - cls) ensures InSome(parts + {cls}, s) && Defined(m, p, alphabet, s) {
      if s in cls {
        assert cls in parts + {cls};
        EquivalentDefined(m, p, alphabet, cur, s);
      } else {
        assert s in block - rest;
        var b :| b in parts && s in b;
        assert b in parts + {cls};
      }
    }
  }

  lemma {:induction false} PartsStepDisjoint(parts: set<set<string>>, done: set<string>, cls: set<string>)
    requires Disjoint(parts) && forall b :: b in parts ==> b <= done
    requires cls * done == {}
    ensures Disjoint(parts + {cls})
  {
    forall b1, b2 | b1 in parts + {cls} && b2 in parts + {cls} && b1 != b2 ensures b1 * b2 == {} {
      if b1 == cls {
        assert b2 <= done;
      } else if b2 == cls {
        assert b1 <= done;
      }
    }
  }

  lemma {:induction false} PartsStepRelation(m: map<string, State>, p: set<set<string>>, alphabet: set<string>,
                                             block: set<string>, rest: set<string>, parts: set<set<string>>,
                                             cur: string, cls: set<string>)
    requires Disjoint(p) && block <= m.Keys && cur in rest && PartsSoFar(m, p, alphabet, block, rest, parts)
    requires ClassOf(m, p, alphabet, cur, rest, cls)
    ensures forall x, y :: x in block - (rest - cls) && y in block - (rest - cls) ==>
              (SameBlock(parts + {cls}, x, y) <==> Equivalent(m, p, alphabet, x, y))
  {
    forall x, y | x in block - (rest - cls) && y in block - (rest - cls)
      ensures SameBlock(parts + {cls}, x, y) <==> Equivalent(m, p, alphabet, x, y)
    {
      if x in cls && y in cls {
        assert cls in parts + {cls};
        EquivalentSymmetric(m, p, alphabet, cur, x);
        EquivalentTransitive(m, p, alphabet, x, cur, y);
      } else if x in cls {
        assert !Equivalent(m, p, alphabet, y, x);
        if Equivalent(m, p, alphabet, x, y) {
          EquivalentSymmetric(m, p, alphabet, x, y);
        }
        NotTogether(parts, cls, block - rest, x, y);
      } else if y in cls {
        assert !Equivalent(m, p, alphabet, x, y);
        NotTogether(parts, cls, block - rest, y, x);
        SameBlockSymmetric(parts + {cls}, x, y);
      } else {
        SameBlockWithout(parts, cls, x, y);
      }
    }
  }

  lemma {:induction false} SameBlockSymmetric(q: set<set<string>>, x: string, y: string)
    ensures SameBlock(q, x, y) <==> SameBlock(q, y, x)
  {
    if SameBlock(q, x, y) {
      var b :| b in q && x in b && y in b;
      assert y in b && x in b;
    }
    if SameBlock(q, y, x) {
      var b :| b in q && y in b && x in b;
      assert x in b && y in b;
    }
  }

  /** A new block `cls` outside `done` separates its members from `done`. */
  lemma {:induction false} NotTogether(parts: set<set<string>>, cls: set<string>, done: set<string>, x: string, y: string)
    requires forall b :: b in parts ==> b <= done
    requires x in cls && x !in done && y !in cls
    ensures !SameBlock(parts + {cls}, x, y)
  {
    forall b | b in parts + {cls} && x in b ensures y !in b {
      assert b == cls;
    }
  }

  /** `cls` holds neither `x` nor `y`: adding it changes nothing for them. */
  lemma {:induction false} SameBlockWithout(parts: set<set<string>>, cls: set<string>, x: string, y: string)
    requires x !in cls
    ensures SameBlock(parts + {cls}, x, y) <==> SameBlock(parts, x, y)
  {
    if SameBlock(parts + {cls}, x, y) {
      var b :| b in parts + {cls} && x in b && y in b;
      assert b in parts;
    }
    if SameBlock(parts, x, y) {
      var b :| b in parts && x in b && y in b;
      assert b in parts + {cls};
    }
  }

  lemma {:induction false} PartsStepApart(m: map<string, State>, p: set<set<string>>, alphabet: set<string>,
                                          block: set<string>, rest: set<string>, parts: set<set<string>>,
                                          cur: string, cls: set<string>)
    requires Disjoint(p) && block <= m.Keys && cur in rest && PartsSoFar(m, p, alphabet, block, rest, parts)
    requires ClassOf(m, p, alphabet, cur, rest, cls)
    ensures forall x, y :: x in block - (rest - cls) && y in rest - cls ==> !Equivalent(m, p, alphabet, x, y)
  {
    forall x, y | x in block - (rest - cls) && y in rest - cls ensures !Equivalent(m, p, alphabet, x, y) {
      if x in cls && Equivalent(m, p, alphabet, x, y) {
        EquivalentTransitive(m, p, alphabet, cur, x, y);
      }
    }
  }

  lemma {:induction false} PartsStep(m: map<string, State>, p: set<set<string>>, alphabet: set<string>,
                                     block: set<string>, rest: set<string>, parts: set<set<string>>,
                                     cur: string, cls: set<string>)
    requires Disjoint(p) && block <= m.Keys && cur in rest && PartsSoFar(m, p, alphabet, block, rest, parts)
    requires ClassOf(m, p, alphabet, cur, rest, cls)
    ensures PartsSoFar(m, p, alphabet, block, rest - cls, parts + {cls})
  {
    PartsStepBlocks(parts, block, rest, cur, cls);
    PartsStepCover(m, p, alphabet, block, rest, parts, cur, cls);
    PartsStepDisjoint(parts, block - rest, cls);
    PartsStepRelation(m, p, alphabet, block, rest, parts, cur, cls);
    PartsStepApart(m, p, alphabet, block, rest, parts, cur, cls);
  }

  /** The `while old_eq_class` loop of `to_minimized` on one block: split
      off the states equivalent to some remaining state, until none is left. */
  method SplitBlock(m: map<string, State>, p: set<set<string>>, alphabet: set<string>, block: set<string>)
    returns (r: Result<set<set<string>>>)
    requires block <= m.Keys && Disjoint(p)
    ensures r.Ok? ==> PartsSoFar(m, p, alphabet, block, {}, r.value)
    ensures (forall s :: s in block ==> Defined(m, p, alphabet, s)) ==> r.Ok?
    ensures r.Err? ==> exists s :: s in block && !Defined(m, p, alphabet, s)
    ensures r.Err? && (forall s :: s in block ==> Covered(m, p, s)) ==> r.error == MissingTransition
  {
    var rest := block;
    var parts: set<set<string>> := {};
    while rest != {}
      invariant PartsSoFar(m, p, alphabet, block, rest, parts)
      decreases rest
    {
      var cur :| cur in rest;
      var cls := EquivalentTo(m, cur, rest, p, alphabet);
      if cls.Err? {
        return Err(cls.error);
      }
      PartsStep(m, p, alphabet, block, rest, parts, cur, cls.value);
      parts := parts + {cls.value};
      rest := rest - cls.value;
    }
    return Ok(parts);
  }

  /** Every block lies in `keys`. */
  predicate Within(p: set<set<string>>, keys: set<string>)
  {
    forall b :: b in p ==> b <= keys
  }

  /** One round of Moore's refinement: the same states, no empty block, and
      two states share a new block exactly when they shared an old one and
      no symbol distinguishes them. */
  ghost predicate RoundOf(m: map<string, State>, p: set<set<string>>, alphabet: set<string>, q: set<set<string>>)
    requires Within(p, m.Keys)
  {
    && (forall b :: b in q ==> b != {})
    && (forall x :: InSome(q, x) <==> InSome(p, x))
    && Disjoint(q)
    && (forall x, y :: InSome(p, x) && InSome(p, y) ==>
          (SameBlock(q, x, y) <==> SameBlock(p, x, y) && Equivalent(m, p, alphabet, x, y)))
  }

  /** The blocks of `done` have been split into `q`. */
  ghost predicate RoundSoFar(m: map<string, State>, p: set<set<string>>, alphabet: set<string>,
                             done: set<set<string>>, q: set<set<string>>)
    requires Within(p, m.Keys) && done <= p
  {
    && (forall b :: b in q ==> b != {} && forall x :: x in b ==> InSome(done, x))
    && (forall x :: InSome(done, x) ==> InSome(q, x) && Defined(m, p, alphabet, x))
    && Disjoint(q)
    && (forall x, y :: InSome(done, x) && InSome(done, y) ==>
          (SameBlock(q, x, y) <==> SameBlock(p, x, y) && Equivalent(m, p, alphabet, x, y)))
  }

  /** Of two families of blocks over disjoint ground sets, only the one over
      `a` can hold a member `x` of `a`. */
  lemma {:induction false} SameBlockLeft(q1: set<set<string>>, q2: set<set<string>>, a: set<string>, b: set<string>,
                                         x: string, y: string)
    requires Within(q1, a) && Within(q2, b) && a * b == {} && x in a
    ensures SameBlock(q1 + q2, x, y) <==> SameBlock(q1, x, y)
  {
    assert x !in a * b;
    forall c | c in q2 ensures x !in c {
      assert c <= b;
    }
    if SameBlock(q1 + q2, x, y) {
      var c :| c in q1 + q2 && x in c && y in c;
      assert c in q1;
    }
    if SameBlock(q1, x, y) {
      var c :| c in q1 && x in c && y in c;
      assert c in q1 + q2;
    }
  }

  lemma {:induction false} SameBlockApart(q1: set<set<string>>, q2: set<set<string>>, a: set<string>, b: set<string>,
                                          x: string, y: string)
    requires Within(q1, a) && Within(q2, b) && a * b == {} && x in a && y in b
    ensures !SameBlock(q1 + q2, x, y)
  {
    SameBlockLeft(q1, q2, a, b, x, y);
    assert y !in a * b;
    forall c | c in q1 ensures y !in c {
      assert c <= a;
    }
  }

  /** The states of the blocks of `p`. */
  function Cover(p: set<set<string>>): (u: set<string>)
    ensures forall x :: x in u <==> InSome(p, x)
  {
    set b, x | b in p && x in b :: x
  }

  /** A block outside `done` shares no state with the blocks of `done`. */
  lemma {:induction false} FreshBlock(p: set<set<string>>, done: set<set<string>>, block: set<string>)
    requires Disjoint(p) && done <= p && block in p && block !in done
    ensures Cover(done) * block == {}
  {
    forall x | x in block ensures !InSome(done, x) {
      forall d | d in done ensures x !in d {
        assert d * block == {};
        assert x !in d * block;
      }
    }
  }

  lemma {:induction false} DisjointUnion(q1: set<set<string>>, q2: set<set<string>>, a: set<string>, b: set<string>)
    requires Disjoint(q1) && Disjoint(q2) && Within(q1, a) && Within(q2, b) && a * b == {}
    ensures Disjoint(q1 + q2)
  {
    forall c1, c2 | c1 in q1 + q2 && c2 in q1 + q2 && c1 != c2 ensures c1 * c2 == {} {
      if c1 in q1 && c2 in q2 {
        assert c1 <= a && c2 <= b;
      } else if c1 in q2 && c2 in q1 {
        assert c1 <= b && c2 <= a;
      }
    }
  }

  lemma {:induction false} RoundStepShape(m: map<string, State>, p: set<set<string>>, alphabet: set<string>,
                                          done: set<set<string>>, q: set<set<string>>, block: set<string>, parts: set<set<string>>)
    requires Within(p, m.Keys) && Disjoint(p) && done <= p && block in p && block !in done
    requires RoundSoFar(m, p, alphabet, done, q) && PartsSoFar(m, p, alphabet, block, {}, parts)
    ensures forall b :: b in q + parts ==> b != {} && forall x :: x in b ==> InSome(done + {block}, x)
    ensures forall x :: InSome(done + {block}, x) ==> InSome(q + parts, x) && Defined(m, p, alphabet, x)
    ensures Disjoint(q + parts)
  {
    forall b | b in q + parts ensures b != {} && forall x :: x in b ==> InSome(done + {block}, x) {
      forall x | x in b ensures InSome(done + {block}, x) {
        if b in q {
          var d :| d in done && x in d;
          assert d in done + {block};
        } else {
          assert block in done + {block};
        }
      }
    }
    forall x | InSome(done + {block}, x) ensures InSome(q + parts, x) && Defined(m, p, alphabet, x) {
      var d :| d in done + {block} && x in d;
      if d in done {
        assert InSome(done, x);
        var c :| c in q && x in c;
        assert c in q + parts;
      } else {
        assert x in block - {};
        var c :| c in parts && x in c;
        assert c in q + parts;
      }
    }
    FreshBlock(p, done, block);
    assert Within(q, Cover(done));
    assert Within(parts, block);
    DisjointUnion(q, parts, Cover(done), block);
  }

  lemma {:induction false} RoundStepRelation(m: map<string, State>, p: set<set<string>>, alphabet: set<string>,
                                             done: set<set<string>>, q: set<set<string>>, block: set<string>, parts: set<set<string>>)
    requires Within(p, m.Keys) && Disjoint(p) && done <= p && block in p && block !in done
    requires RoundSoFar(m, p, alphabet, done, q) && PartsSoFar(m, p, alphabet, block, {}, parts)
    ensures forall x, y :: InSome(done + {block}, x) && InSome(done + {block}, y) ==>
              (SameBlock(q + parts, x, y) <==> SameBlock(p, x, y) && Equivalent(m, p, alphabet, x, y))
  {
    var a := Cover(done);
    FreshBlock(p, done, block);
    assert Within(q, a);
    assert Within(parts, block);
    assert parts + q == q + parts;
    forall x, y | InSome(done + {block}, x) && InSome(done + {block}, y)
      ensures SameBlock(q + parts, x, y) <==> SameBlock(p, x, y) && Equivalent(m, p, alphabet, x, y)
    {
      var dx :| dx in done + {block} && x in dx;
      var dy :| dy in done + {block} && y in dy;
      if dx in done && dy in done {
        SameBlockLeft(q, parts, a, block, x, y);
      } else if dx == block && dy == block {
        SameBlockLeft(parts, q, block, a, x, y);
        assert SameBlock(p, x, y);
      } else if dx in done {
        assert y in block && x in a;
        SameBlockApart(q, parts, a, block, x, y);
        assert x !in a * block;
        OtherBlock(p, block, y, x);
        SameBlockSymmetric(p, x, y);
      } else {
        assert x in block && y in a;
        SameBlockApart(parts, q, block, a, x, y);
        assert y !in a * block;
        OtherBlock(p, block, x, y);
      }
    }
  }

  lemma {:induction false} RoundStep(m: map<string, State>, p: set<set<string>>, alphabet: set<string>,
                                     done: set<set<string>>, q: set<set<string>>, block: set<string>, parts: set<set<string>>)
    requires Within(p, m.Keys) && Disjoint(p) && done <= p && block in p && block !in done
    requires RoundSoFar(m, p, alphabet, done, q) && PartsSoFar(m, p, alphabet, block, {}, parts)
    ensures RoundSoFar(m, p, alphabet, done + {block}, q + parts)
  {
    RoundStepShape(m, p, alphabet, done, q, block, parts);
    RoundStepRelation(m, p, alphabet, done, q, block, parts);
  }

  /** One pass of the outer `while` of `to_minimized`: every block of the
      old partition, in any order, split by `SplitBlock`. */
  method RefineRound(m: map<string, State>, p: set<set<string>>, alphabet: set<string>)
    returns (r: Result<set<set<string>>>)
    requires Within(p, m.Keys) && Disjoint(p)
    ensures r.Ok? ==> RoundOf(m, p, alphabet, r.value)
    ensures r.Ok? <==> forall s :: InSome(p, s) ==> Defined(m, p, alphabet, s)
    ensures r.Err? && (forall s :: InSome(p, s) ==> Covered(m, p, s)) ==> r.error == MissingTransition
  {
    var todo := p;
    var q: set<set<string>> := {};
    while todo != {}
      invariant todo <= p
      invariant RoundSoFar(m, p, alphabet, p - todo, q)
      decreases todo
    {
      var block :| block in todo;
      var parts := SplitBlock(m, p, alphabet, block);
      if parts.Err? {
        return Err(parts.error);
      }
      RoundStep(m, p, alphabet, p - todo, q, block, parts.value);
      assert p - (todo - {block}) == (p - todo) + {block};
      q := q + parts.value;
      todo := todo - {block};
    }
    assert p - todo == p;
    return Ok(q);
  }

  /** The pairs of states of `u` that share a block: this set only shrinks
      from round to round, which bounds the outer loop. */
  ghost function Together(u: set<string>, p: set<set<string>>): set<(string, string)>
  {
    set x, y | x in u && y in u && SameBlock(p, x, y) :: (x, y)
  }

  lemma {:induction false} RoundTogether(m: map<string, State>, p: set<set<string>>, alphabet: set<string>, q: set<set<string>>)
    requires Within(p, m.Keys) && RoundOf(m, p, alphabet, q)
    ensures Together(Cover(p), q) <= Together(Cover(p), p)
  {
  }

  /** In a partition, the blocks holding `x` are the one block of its
      members. */
  lemma {:induction false} BlockOfMember(p: set<set<string>>, b: set<string>, x: string, y: string)
    requires Disjoint(p) && b in p && x in b
    ensures SameBlock(p, x, y) <==> y in b
  {
    if SameBlock(p, x, y) {
      var c :| c in p && x in c && y in c;
      assert x in b * c;
      assert c == b;
    }
  }

  /** A partition without empty blocks is fixed by the pairs it puts together. */
  lemma {:induction false} TogetherDetermines(u: set<string>, p1: set<set<string>>, p2: set<set<string>>)
    requires Disjoint(p1) && Disjoint(p2) && Within(p1, u) && Within(p2, u)
    requires forall b :: b in p1 ==> b != {}
    requires forall x :: x in u ==> InSome(p2, x)
    requires Together(u, p1) == Together(u, p2)
    ensures p1 <= p2
  {
    forall b | b in p1 ensures b in p2 {
      var x :| x in b;
      assert x in u;
      var d :| d in p2 && x in d;
      forall y ensures y in b <==> y in d {
        BlockOfMember(p1, b, x, y);
        BlockOfMember(p2, d, x, y);
        if y in b {
          assert (x, y) in Together(u, p1);
        }
        if y in d {
          assert d <= u;
          assert (x, y) in Together(u, p2);
        }
      }
      assert b == d;
    }
  }

  /** A round that changes a partition without empty blocks separates some
      pair of states. */
  lemma {:induction false} RoundSeparates(m: map<string, State>, p: set<set<string>>, alphabet: set<string>, q: set<set<string>>)
    requires Within(p, m.Keys) && Disjoint(p) && RoundOf(m, p, alphabet, q)
    requires {} !in p && q != p
    ensures Together(Cover(p), q) < Together(Cover(p), p)
  {
    var u := Cover(p);
    RoundTogether(m, p, alphabet, q);
    forall b | b in q ensures b <= u {
      forall x | x in b ensures x in u {
        assert InSome(q, x);
      }
    }
    forall b | b in p ensures b <= u {
      forall x | x in b ensures x in u {
        assert InSome(p, x);
      }
    }
    if Together(u, q) == Together(u, p) {
      TogetherDetermines(u, q, p);
      TogetherDetermines(u, p, q);
    }
  }

  /** The names the transitions of `st` lead to. */
  function Successors(st: State): set<string>
  {
    set t | t in st.transitions :: t.target
  }

  /** `s` holds the successors of each of its states. */
  ghost predicate SuccessorClosed(m: map<string, State>, s: set<string>)
  {
    forall n :: n in s ==> n in m && Successors(m[n]) <= s
  }

  /** `u` is the set of states reachable from `init`: the least
      successor-closed set holding it. */
  ghost predicate Accessible(m: map<string, State>, init: string, u: set<string>)
  {
    && init in u
    && SuccessorClosed(m, u)
    && forall s :: init in s && SuccessorClosed(m, s) ==> u <= s
  }

  /** In a constructed automaton every successor is a state. */
  lemma {:induction false} SuccessorsAreStates(a: FiniteAutomaton, n: string)
    requires Valid(a) && n in Names(a.states)
    ensures Successors(Name2State(a)[n]) <= Names(a.states)
  {
    var i :| 0 <= i < |a.states| && a.states[i].name == n;
    forall t | t in a.states[i].transitions ensures t.target in Names(a.states) {
      assert t.target in Targets(a.states);
    }
  }

  /** The worklist of `_get_accessible_states` (the order of the list is
      not modelled, only its elements). */
  ghost predicate Exploring(m: map<string, State>, init: string, open: seq<string>, closed: seq<string>)
  {
    && (forall n :: n in open ==> n in m)
    && (forall n :: n in closed ==> n in m)
    && NoDuplicates(closed)
    && (init in open || init in closed)
    && (forall n :: n in closed ==> forall t :: t in m[n].transitions ==> t.target in open || t.target in closed)
    && (forall s :: init in s && SuccessorClosed(m, s) ==>
          (forall n :: n in open ==> n in s) && (forall n :: n in closed ==> n in s))
  }

  lemma {:induction false} ExploreStep(m: map<string, State>, init: string, open: seq<string>, closed: seq<string>)
    requires Exploring(m, init, open, closed) && |open| > 0
    requires Successors(m[open[|open| - 1]]) <= m.Keys
    ensures var cur, rest := open[|open| - 1], open[..|open| - 1];
            if cur in closed then Exploring(m, init, rest, closed)
            else Exploring(m, init, rest + TargetList(m[cur].transitions), closed + [cur])
  {
    var cur, rest := open[|open| - 1], open[..|open| - 1];
    assert open == rest + [cur];
    forall n | n in open ensures n in rest || n == cur { }
    if cur !in closed {
      var open' := rest + TargetList(m[cur].transitions);
      var closed' := closed + [cur];
      forall n | n in open' ensures n in m {
        if n !in rest {
          var k :| 0 <= k < |TargetList(m[cur].transitions)| && TargetList(m[cur].transitions)[k] == n;
          assert n in Successors(m[cur]);
        }
      }
      forall t | t in m[cur].transitions ensures t.target in open' {
        var k :| 0 <= k < |m[cur].transitions| && m[cur].transitions[k] == t;
        assert TargetList(m[cur].transitions)[k] == t.target;
      }
      forall s | init in s && SuccessorClosed(m, s) ensures forall n :: n in open' ==> n in s {
        assert Successors(m[cur]) <= s;
      }
    }
  }

  lemma {:induction false} ExploreStart(m: map<string, State>, init: string)
    requires init in m
    ensures Exploring(m, init, [init], [])
  {
  }

  lemma {:induction false} ExploreDone(m: map<string, State>, init: string, closed: seq<string>)
    requires Exploring(m, init, [], closed)
    ensures Accessible(m, init, set n | n in closed)
  {
    var u := set n | n in closed;
    forall n | n in u ensures n in m && Successors(m[n]) <= u {
      forall x | x in Successors(m[n]) ensures x in u {
        var t :| t in m[n].transitions && t.target == x;
      }
    }
  }

  /** `[transition.state for transition in transitions]`. */
  function TargetList(ts: seq<Transition>): (r: seq<string>)
    ensures |r| == |ts| && forall k :: 0 <= k < |ts| ==> r[k] == ts[k].target
  {
    seq(|ts|, k requires 0 <= k < |ts| => ts[k].target)
  }

  /** `_get_accessible_states`: a depth-first worklist from `states[0]`. */
  method AccessibleStates(a: FiniteAutomaton) returns (r: Result<seq<string>>)
    requires Valid(a)
    ensures r.Err? <==> |a.states| == 0
    ensures r.Err? ==> r.error == NoInitialState
    ensures r.Ok? ==> NoDuplicates(r.value) && Accessible(Name2State(a), a.states[0].name, set n | n in r.value)
  {
    if |a.states| == 0 {
      return Err(NoInitialState);
    }
    var m := Name2State(a);
    var init := a.states[0].name;
    var open := [init];
    var closed: seq<string> := [];
    ghost var seen: set<string> := {};
    ExploreStart(m, init);
    while |open| > 0
      invariant Exploring(m, init, open, closed)
      invariant forall n :: n in seen <==> n in closed
      decreases m.Keys - seen, |open|
    {
      var cur := open[|open| - 1];
      SuccessorsAreStates(a, cur);
      ExploreStep(m, init, open, closed);
      open := open[..|open| - 1];
      if cur !in closed {
        assert cur in m.Keys - seen;
        closed := closed + [cur];
        seen := seen + {cur};
        open := open + TargetList(m[cur].transitions);
      }
    }
    ExploreDone(m, init, closed);
    return Ok(closed);
  }

  /** Every state of `u` has a transition for every symbol: otherwise
      `_transition_function` raises `DFAError`. */
  predicate Complete(m: map<string, State>, u: set<string>, alphabet: set<string>)
    requires u <= m.Keys
  {
    forall n, c :: n in u && c in alphabet ==> FirstTarget(m[n].transitions, c).Some?
  }

  /** States sharing a block agree on finality. */
  ghost predicate RespectsFinality(m: map<string, State>, p: set<set<string>>)
  {
    forall x, y :: SameBlock(p, x, y) && x in m && y in m ==> m[x].isFinal == m[y].isFinal
  }

  /** The states of `u` split by finality, `{non-final, final}`. */
  function FinalitySplit(m: map<string, State>, u: set<string>): (p: set<set<string>>)
    requires u <= m.Keys
    ensures Disjoint(p) && Within(p, m.Keys) && Cover(p) == u
    ensures RespectsFinality(m, p)
  {
    var finals := set n | n in u && m[n].isFinal;
    var others := u - finals;
    assert forall n :: n in u ==> InSome({others, finals}, n) by {
      forall n | n in u ensures InSome({others, finals}, n) {
        if n in finals { assert finals in {others, finals}; } else { assert others in {others, finals}; }
      }
    }
    {others, finals}
  }

  /** With every target inside `u` and `u` covered by `p`, all transitions
      lead into `p`. */
  lemma {:induction false} ClosedCovered(m: map<string, State>, u: set<string>, p: set<set<string>>)
    requires SuccessorClosed(m, u) && Cover(p) == u
    ensures forall s :: InSome(p, s) ==> s in m && Covered(m, p, s)
  {
    forall s | InSome(p, s) ensures s in m && Covered(m, p, s) {
      assert s in Cover(p);
      forall t | t in m[s].transitions ensures InSome(p, t.target) {
        assert t.target in Successors(m[s]);
      }
    }
  }

  /** Over a covered set, being defined is being complete. */
  lemma {:induction false} DefinedIffComplete(m: map<string, State>, u: set<string>, p: set<set<string>>, alphabet: set<string>)
    requires SuccessorClosed(m, u) && Cover(p) == u && u <= m.Keys
    ensures (forall s :: InSome(p, s) ==> Defined(m, p, alphabet, s)) <==> Complete(m, u, alphabet)
  {
    ClosedCovered(m, u, p);
    if Complete(m, u, alphabet) {
      forall s | InSome(p, s) ensures Defined(m, p, alphabet, s) {
        assert s in Cover(p);
        forall c | c in alphabet ensures Defined1(m, p, s, c) {
          CoveredTarget(m, p, s, c);
        }
      }
    }
    if forall s :: InSome(p, s) ==> Defined(m, p, alphabet, s) {
      forall n, c | n in u && c in alphabet ensures FirstTarget(m[n].transitions, c).Some? {
        assert InSome(p, n);
        assert Defined1(m, p, n, c);
      }
    }
  }

  lemma {:induction false} RoundKeeps(m: map<string, State>, p: set<set<string>>, alphabet: set<string>, q: set<set<string>>)
    requires Within(p, m.Keys) && RoundOf(m, p, alphabet, q) && RespectsFinality(m, p)
    ensures Within(q, m.Keys) && Cover(q) == Cover(p) && RespectsFinality(m, q)
  {
    forall b | b in q ensures b <= m.Keys {
      forall x | x in b ensures x in m.Keys {
        assert InSome(q, x);
        var d :| d in p && x in d;
      }
    }
    forall x, y | SameBlock(q, x, y) && x in m && y in m ensures m[x].isFinal == m[y].isFinal {
      var b :| b in q && x in b && y in b;
      assert InSome(q, x) && InSome(q, y);
    }
  }

  /** A round either changes nothing, or puts fewer pairs together, or drops
      the empty block the split by finality may hold. */
  lemma {:induction false} RoundMeasure(m: map<string, State>, p: set<set<string>>, alphabet: set<string>, q: set<set<string>>)
    requires Within(p, m.Keys) && Disjoint(p) && RoundOf(m, p, alphabet, q)
    ensures q == p || Together(Cover(p), q) < Together(Cover(p), p) ||
            (Together(Cover(p), q) == Together(Cover(p), p) && EmptyBlocks(q) < EmptyBlocks(p))
  {
    RoundTogether(m, p, alphabet, q);
    if q != p && {} !in p {
      RoundSeparates(m, p, alphabet, q);
    }
  }

  /** `{}` is in the partition or not. */
  function EmptyBlocks(p: set<set<string>>): nat
  {
    if {} in p then 1 else 0
  }

  /** The outer `while` of `to_minimized`, from the split by finality until
      a round changes nothing. */
  method RefinePartition(m: map<string, State>, u: set<string>, alphabet: set<string>) returns (r: Result<set<set<string>>>)
    requires u <= m.Keys && SuccessorClosed(m, u)
    ensures r.Ok? <==> Complete(m, u, alphabet)
    ensures r.Err? ==> r.error == MissingTransition
    ensures r.Ok? ==> Within(r.value, m.Keys) && Disjoint(r.value) && Cover(r.value) == u
    ensures r.Ok? ==> RespectsFinality(m, r.value)
    ensures r.Ok? ==> RoundOf(m, r.value, alphabet, r.value)
    ensures r.Ok? ==> forall e :: Bisimulation(m, u, alphabet, e) ==> e <= Together(u, r.value)
  {
    var newP := FinalitySplit(m, u);
    var oldP: set<set<string>> := {};
    ghost var started := false;
    forall e | Bisimulation(m, u, alphabet, e) ensures e <= Together(u, newP) {
      BisimulationInitial(m, u, alphabet, e);
    }
    while oldP != newP
      invariant Within(newP, m.Keys) && Disjoint(newP) && Cover(newP) == u && RespectsFinality(m, newP)
      invariant forall e :: Bisimulation(m, u, alphabet, e) ==> e <= Together(u, newP)
      invariant started ==> Within(oldP, m.Keys) && RoundOf(m, oldP, alphabet, newP) && Cover(oldP) == u
      invariant started ==> Complete(m, u, alphabet)
      invariant !started ==> oldP == {} && newP != {}
      decreases Together(u, newP), EmptyBlocks(newP), if oldP == newP then 0 else 1
    {
      oldP := newP;
      started := true;
      var q := RefineRound(m, oldP, alphabet);
      ClosedCovered(m, u, oldP);
      DefinedIffComplete(m, u, oldP, alphabet);
      if q.Err? {
        return Err(q.error);
      }
      RoundKeeps(m, oldP, alphabet, q.value);
      RoundMeasure(m, oldP, alphabet, q.value);
      forall e | Bisimulation(m, u, alphabet, e) ensures e <= Together(u, q.value) {
        BisimulationRound(m, u, alphabet, oldP, q.value, e);
      }
      newP := q.value;
    }
    return Ok(newP);
  }

  /** A relation on `u` that keeps finality and relates, symbol by symbol,
      the targets of the states it relates: states it relates accept the
      same words. */
  ghost predicate Bisimulation(m: map<string, State>, u: set<string>, alphabet: set<string>, e: set<(string, string)>)
    requires u <= m.Keys
  {
    forall x, y :: (x, y) in e ==>
      && x in u && y in u && m[x].isFinal == m[y].isFinal
      && forall c :: c in alphabet ==>
           && FirstTarget(m[x].transitions, c).Some? && FirstTarget(m[y].transitions, c).Some?
           && (FirstTarget(m[x].transitions, c).value, FirstTarget(m[y].transitions, c).value) in e
  }

  /** The split by finality already keeps together what a bisimulation relates. */
  lemma {:induction false} BisimulationInitial(m: map<string, State>, u: set<string>, alphabet: set<string>, e: set<(string, string)>)
    requires u <= m.Keys && Bisimulation(m, u, alphabet, e)
    ensures e <= Together(u, FinalitySplit(m, u))
  {
    var p := FinalitySplit(m, u);
    var finals := set n | n in u && m[n].isFinal;
    assert p == {u - finals, finals};
    forall pair | pair in e ensures pair in Together(u, p) {
      var (x, y) := pair;
      assert m[x].isFinal == m[y].isFinal;
      if m[x].isFinal {
        assert x in finals && y in finals && finals in p;
      } else {
        assert x in u - finals && y in u - finals && u - finals in p;
      }
    }
  }

  /** A round never separates what a bisimulation relates. */
  lemma {:induction false} BisimulationRound(m: map<string, State>, u: set<string>, alphabet: set<string>,
                                             p: set<set<string>>, q: set<set<string>>, e: set<(string, string)>)
    requires u <= m.Keys && Within(p, m.Keys) && Cover(p) == u && RoundOf(m, p, alphabet, q)
    requires Bisimulation(m, u, alphabet, e) && e <= Together(u, p)
    ensures e <= Together(u, q)
  {
    forall pair | pair in e ensures pair in Together(u, q) {
      var (x, y) := pair;
      assert pair in Together(u, p);
      BisimulationEquivalent(m, u, alphabet, p, e, x, y);
      assert InSome(p, x) && InSome(p, y);
    }
  }

  lemma {:induction false} BisimulationEquivalent(m: map<string, State>, u: set<string>, alphabet: set<string>,
                                                  p: set<set<string>>, e: set<(string, string)>, x: string, y: string)
    requires u <= m.Keys && Bisimulation(m, u, alphabet, e) && e <= Together(u, p) && (x, y) in e
    ensures x in m && y in m && Equivalent(m, p, alphabet, x, y)
  {
    forall c | c in alphabet ensures Agree(m, p, x, y, c) {
      var tx, ty := FirstTarget(m[x].transitions, c).value, FirstTarget(m[y].transitions, c).value;
      assert (tx, ty) in Together(u, p);
    }
  }

  /** The fixpoint groups states into the classes of a bisimulation. */
  lemma {:induction false} FixpointBisimulation(m: map<string, State>, u: set<string>, alphabet: set<string>, p: set<set<string>>)
    requires u <= m.Keys && Within(p, m.Keys) && Cover(p) == u
    requires RespectsFinality(m, p) && RoundOf(m, p, alphabet, p)
    ensures Bisimulation(m, u, alphabet, Together(u, p))
  {
    forall x, y | (x, y) in Together(u, p)
      ensures forall c :: c in alphabet ==>
                && FirstTarget(m[x].transitions, c).Some? && FirstTarget(m[y].transitions, c).Some?
                && (FirstTarget(m[x].transitions, c).value, FirstTarget(m[y].transitions, c).value) in Together(u, p)
    {
      FixpointCongruence(m, p, alphabet, x, y);
      forall c | c in alphabet
        ensures (FirstTarget(m[x].transitions, c).value, FirstTarget(m[y].transitions, c).value) in Together(u, p)
      {
        assert Agree(m, p, x, y, c);
        var tx, ty := FirstTarget(m[x].transitions, c).value, FirstTarget(m[y].transitions, c).value;
        assert InSome(p, tx) && InSome(p, ty);
      }
    }
  }

  /** Each round's blocks lie inside the previous round's blocks. */
  lemma {:induction false} RoundRefines(m: map<string, State>, p: set<set<string>>, alphabet: set<string>, q: set<set<string>>)
    requires Within(p, m.Keys) && Disjoint(p) && RoundOf(m, p, alphabet, q)
    ensures forall b :: b in q ==> exists d :: d in p && b <= d
  {
    forall b | b in q ensures exists d :: d in p && b <= d {
      var x :| x in b;
      assert InSome(q, x);
      var d :| d in p && x in d;
      forall y | y in b ensures y in d {
        assert InSome(q, y);
        assert SameBlock(q, x, y);
        BlockOfMember(p, d, x, y);
      }
    }
  }

  /** At the fixpoint, states sharing a block are not distinguishable: the
      partition is a congruence for every symbol. */
  lemma {:induction false} FixpointCongruence(m: map<string, State>, p: set<set<string>>, alphabet: set<string>,
                                              x: string, y: string)
    requires Within(p, m.Keys) && RoundOf(m, p, alphabet, p) && SameBlock(p, x, y)
    ensures x in m && y in m && Equivalent(m, p, alphabet, x, y)
  {
    var b :| b in p && x in b && y in b;
    assert InSome(p, x) && InSome(p, y);
  }

  /** The block of `p` holding `n`. */
  ghost function BlockOf(p: set<set<string>>, n: string): (b: set<string>)
    requires InSome(p, n)
    ensures b in p && n in b
  {
    var b :| b in p && n in b; b
  }

  lemma {:induction false} BlockOfUnique(p: set<set<string>>, b: set<string>, n: string)
    requires Disjoint(p) && b in p && n in b
    ensures BlockOf(p, n) == b
  {
    assert n in b * BlockOf(p, n);
  }

  /** The transitions of the representative with each target replaced by
      the name of its block. */
  ghost function Mapped(p: set<set<string>>, ts: seq<Transition>): (r: seq<Transition>)
    requires {} !in p && forall t :: t in ts ==> InSome(p, t.target)
    ensures |r| == |ts|
  {
    seq(|ts|, k requires 0 <= k < |ts| => Transition(ts[k].symbol, Smallest(BlockOf(p, ts[k].target))))
  }

  /** The comprehension of `get_states_list_from_partition` that renames the
      targets of the representative's transitions. */
  method ClassTransitions(p: set<set<string>>, ts: seq<Transition>) returns (r: seq<Transition>)
    requires Disjoint(p) && {} !in p && forall t :: t in ts ==> InSome(p, t.target)
    ensures r == Mapped(p, ts)
  {
    r := [];
    for k := 0 to |ts|
      invariant r == Mapped(p, ts[..k])
    {
      assert ts[k] in ts;
      var block := GetEquivalenceClass(ts[k].target, p);
      BlockOfUnique(p, block.value, ts[k].target);
      assert Mapped(p, ts[..k + 1]) == Mapped(p, ts[..k]) + [Transition(ts[k].symbol, Smallest(block.value))];
      r := r + [Transition(ts[k].symbol, Smallest(block.value))];
    }
    assert ts[..|ts|] == ts;
  }

  /** `st` is the state `get_states_list_from_partition` makes for block `b`
      with representative `rep`: named by the least name of the block, final
      as the representative, with the representative's transitions renamed
      (repeats dropped). */
  ghost predicate QuotientState(m: map<string, State>, p: set<set<string>>, b: set<string>, rep: string, st: State)
    requires rep in m && {} !in p && b != {} && Covered(m, p, rep)
  {
    && st.name == Smallest(b)
    && st.isFinal == m[rep].isFinal
    && (forall t :: t in st.transitions <==> t in Mapped(p, m[rep].transitions))
    && NoDuplicates(st.transitions)
  }

  /** The states built so far, one per block of `blocks`, with the block of
      the initial state first once it has been seen. */
  ghost predicate Layout(m: map<string, State>, p: set<set<string>>, init: string,
                         blocks: seq<set<string>>, reps: seq<string>, states: seq<State>)
    requires Disjoint(p) && {} !in p && Within(p, m.Keys)
  {
    && |blocks| == |reps| == |states|
    && NoDuplicates(blocks)
    && (forall i :: 0 <= i < |blocks| ==> blocks[i] in p && reps[i] in blocks[i] && reps[i] in m && Covered(m, p, reps[i]))
    && (forall i :: 0 <= i < |blocks| ==> QuotientState(m, p, blocks[i], reps[i], states[i]))
    && (forall i :: 0 < i < |blocks| ==> init !in blocks[i])
  }

  /** Placing the state of a fresh block that holds the initial state at
      the front keeps the layout. */
  lemma {:induction false} LayoutFront(m: map<string, State>, p: set<set<string>>, init: string,
                                       blocks: seq<set<string>>, reps: seq<string>, states: seq<State>,
                                       b: set<string>, rep: string, st: State)
    requires Disjoint(p) && {} !in p && Within(p, m.Keys)
    requires Layout(m, p, init, blocks, reps, states)
    requires b in p && rep in b && b !in blocks && init in b
    requires rep in m && Covered(m, p, rep) && QuotientState(m, p, b, rep, st)
    ensures Layout(m, p, init, [b] + blocks, [rep] + reps, [st] + states)
  {
    var blocks', reps', states' := [b] + blocks, [rep] + reps, [st] + states;
    forall i | 0 < i < |blocks'| ensures init !in blocks'[i] {
      assert blocks'[i] == blocks[i - 1];
      assert blocks[i - 1] in p && blocks[i - 1] != b;
      assert b * blocks[i - 1] == {};
      assert init !in b * blocks[i - 1];
    }
    forall i | 0 <= i < |blocks'|
      ensures blocks'[i] in p && reps'[i] in blocks'[i] && reps'[i] in m && Covered(m, p, reps'[i])
      ensures QuotientState(m, p, blocks'[i], reps'[i], states'[i])
    {
      if i > 0 {
        assert blocks'[i] == blocks[i - 1] && reps'[i] == reps[i - 1] && states'[i] == states[i - 1];
      }
    }
  }

  /** Placing the state of a fresh block without the initial state at the
      back keeps the layout. */
  lemma {:induction false} LayoutBack(m: map<string, State>, p: set<set<string>>, init: string,
                                      blocks: seq<set<string>>, reps: seq<string>, states: seq<State>,
                                      b: set<string>, rep: string, st: State)
    requires Disjoint(p) && {} !in p && Within(p, m.Keys)
    requires Layout(m, p, init, blocks, reps, states)
    requires b in p && rep in b && b !in blocks && init !in b
    requires rep in m && Covered(m, p, rep) && QuotientState(m, p, b, rep, st)
    ensures Layout(m, p, init, blocks + [b], reps + [rep], states + [st])
  {
    var blocks', reps', states' := blocks + [b], reps + [rep], states + [st];
    forall i | 0 <= i < |blocks'|
      ensures blocks'[i] in p && reps'[i] in blocks'[i] && reps'[i] in m && Covered(m, p, reps'[i])
      ensures QuotientState(m, p, blocks'[i], reps'[i], states'[i])
      ensures 0 < i ==> init !in blocks'[i]
    {
      if i < |blocks| {
        assert blocks'[i] == blocks[i] && reps'[i] == reps[i] && states'[i] == states[i];
      }
    }
  }

  /** `utils.get_states_list_from_partition`: one state per block, in any
      order except that the block of the initial state comes first. */
  method StatesFromPartition(m: map<string, State>, init: string, p: set<set<string>>)
    returns (states: seq<State>, ghost blocks: seq<set<string>>, ghost reps: seq<string>)
    requires Disjoint(p) && {} !in p && Within(p, m.Keys) && InSome(p, init)
    requires forall s :: InSome(p, s) ==> Covered(m, p, s)
    ensures Layout(m, p, init, blocks, reps, states)
    ensures forall b :: b in p <==> b in blocks
    ensures |states| > 0 && init in blocks[0]
  {
    states, blocks, reps := [], [], [];
    ghost var first := BlockOf(p, init);
    var rest := p;
    while rest != {}
      invariant rest <= p
      invariant Layout(m, p, init, blocks, reps, states)
      invariant forall b :: b in p ==> (b in blocks <==> b !in rest)
      invariant forall b :: b in blocks ==> b in p
      invariant first !in rest ==> |blocks| > 0 && init in blocks[0]
      decreases rest
    {
      var b :| b in rest;
      assert b != {};
      var rep :| rep in b;
      assert InSome(p, rep);
      var ts := ClassTransitions(p, m[rep].transitions);
      var st := AddTransitions(State(Smallest(b), m[rep].isFinal, []), ts);
      if init in b {
        LayoutFront(m, p, init, blocks, reps, states, b, rep, st);
        states, blocks, reps := [st] + states, [b] + blocks, [rep] + reps;
      } else {
        LayoutBack(m, p, init, blocks, reps, states, b, rep, st);
        states, blocks, reps := states + [st], blocks + [b], reps + [rep];
      }
      rest := rest - {b};
    }
  }

  /** The facts the layout holds about its `i`-th state. */
  lemma {:induction false} LayoutAt(m: map<string, State>, p: set<set<string>>, init: string,
                                    blocks: seq<set<string>>, reps: seq<string>, states: seq<State>, i: int)
    requires Disjoint(p) && {} !in p && Within(p, m.Keys)
    requires Layout(m, p, init, blocks, reps, states) && 0 <= i < |states|
    ensures blocks[i] in p && reps[i] in blocks[i] && reps[i] in m && Covered(m, p, reps[i])
    ensures states[i].name == Smallest(blocks[i]) && states[i].isFinal == m[reps[i]].isFinal
    ensures forall t :: t in states[i].transitions <==> t in Mapped(p, m[reps[i]].transitions)
    ensures forall j :: 0 <= j < |states| && j != i ==> blocks[j] != blocks[i]
  {
    assert QuotientState(m, p, blocks[i], reps[i], states[i]);
  }

  /** Distinct blocks of a partition get distinct names. */
  lemma {:induction false} QuotientNamesDistinct(m: map<string, State>, p: set<set<string>>, init: string,
                                                 blocks: seq<set<string>>, reps: seq<string>, states: seq<State>)
    requires Disjoint(p) && {} !in p && Within(p, m.Keys)
    requires Layout(m, p, init, blocks, reps, states)
    ensures DistinctNames(states)
  {
    forall i, j | 0 <= i < j < |states| ensures states[i].name != states[j].name {
      LayoutAt(m, p, init, blocks, reps, states, i);
      LayoutAt(m, p, init, blocks, reps, states, j);
      assert blocks[i] * blocks[j] == {};
      assert Smallest(blocks[j]) in blocks[j];
      assert Smallest(blocks[j]) !in blocks[i] * blocks[j];
    }
  }

  /** A renamed target is the name of the block holding the original target. */
  lemma {:induction false} MappedTarget(p: set<set<string>>, ts: seq<Transition>, t: Transition) returns (x: string)
    requires {} !in p && forall t :: t in ts ==> InSome(p, t.target)
    requires t in Mapped(p, ts)
    ensures InSome(p, x) && t.target == Smallest(BlockOf(p, x))
  {
    var k :| 0 <= k < |ts| && Mapped(p, ts)[k] == t;
    assert ts[k] in ts;
    x := ts[k].target;
  }

  /** The state of block `b` in the layout. */
  lemma {:induction false} StateOfBlock(m: map<string, State>, p: set<set<string>>, init: string,
                                        blocks: seq<set<string>>, reps: seq<string>, states: seq<State>, b: set<string>)
    requires Disjoint(p) && {} !in p && Within(p, m.Keys)
    requires Layout(m, p, init, blocks, reps, states) && b in blocks
    ensures Smallest(b) in Names(states)
  {
    var j :| 0 <= j < |blocks| && blocks[j] == b;
    LayoutAt(m, p, init, blocks, reps, states, j);
  }

  /** Every renamed target is the name of one of the built states. */
  lemma {:induction false} QuotientTargets(m: map<string, State>, p: set<set<string>>, init: string,
                                           blocks: seq<set<string>>, reps: seq<string>, states: seq<State>)
    requires Disjoint(p) && {} !in p && Within(p, m.Keys)
    requires Layout(m, p, init, blocks, reps, states)
    requires forall b :: b in p ==> b in blocks
    ensures Targets(states) <= Names(states)
  {
    forall n | n in Targets(states) ensures n in Names(states) {
      var i, t :| 0 <= i < |states| && t in states[i].transitions && t.target == n;
      LayoutAt(m, p, init, blocks, reps, states, i);
      var x := MappedTarget(p, m[reps[i]].transitions, t);
      StateOfBlock(m, p, init, blocks, reps, states, BlockOf(p, x));
    }
  }

  /** The non-lambda symbols labelling a transition of a state of `u`. */
  ghost function Symbols(m: map<string, State>, u: set<string>): set<string>
    requires u <= m.Keys
  {
    set n, t | n in u && t in m[n].transitions && !IsLambda(t.symbol) :: t.symbol.value
  }

  /** The states `names` lists, in order. */
  function StatesNamed(m: map<string, State>, names: seq<string>): (r: seq<State>)
    requires forall i :: 0 <= i < |names| ==> names[i] in m
    ensures |r| == |names| && forall i :: 0 <= i < |names| ==> r[i] == m[names[i]]
  {
    seq(|names|, i requires 0 <= i < |names| => m[names[i]])
  }

  /** `utils.alphabet` of the accessible states is the alphabet of the set
      of their names. */
  lemma {:induction false} AlphabetOfNamed(m: map<string, State>, names: seq<string>)
    requires forall i :: 0 <= i < |names| ==> names[i] in m
    ensures (set n | n in names) <= m.Keys
    ensures Alphabet(StatesNamed(m, names)) == Symbols(m, set n | n in names)
  {
    var states := StatesNamed(m, names);
    var u := set n | n in names;
    forall c | c in Alphabet(states) ensures c in Symbols(m, u) {
      var i, t :| 0 <= i < |states| && t in states[i].transitions && !IsLambda(t.symbol) && t.symbol.value == c;
      assert names[i] in u;
    }
    forall c | c in Symbols(m, u) ensures c in Alphabet(states) {
      var n, t :| n in u && t in m[n].transitions && !IsLambda(t.symbol) && t.symbol.value == c;
      var i :| 0 <= i < |names| && names[i] == n;
      assert t in states[i].transitions;
    }
  }

  /** What `to_minimized` returns for an automaton whose accessible states
      are `u`: one state per block of `p`, where `p` groups states exactly
      as the largest bisimulation on `u` does. */
  ghost predicate Minimized(m: map<string, State>, init: string, u: set<string>, p: set<set<string>>, states: seq<State>)
    requires u <= m.Keys
  {
    && Within(p, m.Keys) && Disjoint(p) && {} !in p && Cover(p) == u
    && (forall s :: InSome(p, s) ==> s in m && Covered(m, p, s))
    && RespectsFinality(m, p)
    && Bisimulation(m, u, Symbols(m, u), Together(u, p))
    && (forall e :: Bisimulation(m, u, Symbols(m, u), e) ==> e <= Together(u, p))
    && exists blocks, reps ::
         && Layout(m, p, init, blocks, reps, states)
         && (forall b :: b in p <==> b in blocks)
         && |states| > 0 && init in blocks[0]
  }

  /** The refined partition and the states built from it make a minimization. */
  lemma {:induction false} MinimizedIntro(m: map<string, State>, init: string, u: set<string>, alphabet: set<string>,
                                          p: set<set<string>>, blocks: seq<set<string>>, reps: seq<string>, states: seq<State>)
    requires u <= m.Keys && SuccessorClosed(m, u) && alphabet == Symbols(m, u)
    requires Within(p, m.Keys) && Disjoint(p) && Cover(p) == u
    requires RespectsFinality(m, p) && RoundOf(m, p, alphabet, p)
    requires forall e :: Bisimulation(m, u, alphabet, e) ==> e <= Together(u, p)
    requires {} !in p && Layout(m, p, init, blocks, reps, states)
    requires (forall b :: b in p <==> b in blocks) && |states| > 0 && init in blocks[0]
    ensures Minimized(m, init, u, p, states)
  {
    ClosedCovered(m, u, p);
    FixpointBisimulation(m, u, alphabet, p);
  }

  /** `FiniteAutomaton.to_minimized`: the accessible states, their alphabet,
      the refined partition and the automaton of its blocks. */
  method ToMinimized(a: FiniteAutomaton) returns (r: Result<FiniteAutomaton>, ghost u: set<string>, ghost p: set<set<string>>)
    requires Valid(a)
    ensures r == Err(NoInitialState) <==> |a.states| == 0
    ensures |a.states| > 0 ==> Accessible(Name2State(a), a.states[0].name, u) && u <= Names(a.states)
    ensures |a.states| > 0 ==> (r.Ok? <==> Complete(Name2State(a), u, Symbols(Name2State(a), u)))
    ensures |a.states| > 0 && r.Err? ==> r.error == MissingTransition
    ensures r.Ok? ==> Valid(r.value) && Minimized(Name2State(a), a.states[0].name, u, p, r.value.states)
  {
    var accessible := AccessibleStates(a);
    if accessible.Err? {
      return Err(accessible.error), {}, {};
    }
    var m := Name2State(a);
    var init := a.states[0].name;
    var names := accessible.value;
    var closed := set n | n in names;
    u := closed;
    assert forall i :: 0 <= i < |names| ==> names[i] in m by {
      forall i | 0 <= i < |names| ensures names[i] in m {
        assert names[i] in closed;
      }
    }
    var alphabet := Alphabet(StatesNamed(m, names));
    AlphabetOfNamed(m, names);
    var refined := RefinePartition(m, closed, alphabet);
    if refined.Err? {
      return Err(refined.error), u, {};
    }
    var partition := refined.value;
    p := partition;
    ClosedCovered(m, closed, partition);
    assert InSome(partition, init) by {
      assert init in Cover(partition);
    }
    var states, blocks, reps := StatesFromPartition(m, init, partition);
    QuotientNamesDistinct(m, partition, init, blocks, reps, states);
    QuotientTargets(m, partition, init, blocks, reps, states);
    MinimizedIntro(m, init, closed, alphabet, partition, blocks, reps, states);
    r := NewAutomaton(states);
  }

  /** The state named after the block of `x` is final exactly when `x` is,
      and on each symbol of the alphabet it moves to the state named after
      the block of `x`'s successor: the minimized automaton follows every
      state of the block it stands for. */
  lemma {:induction false} QuotientStep(m: map<string, State>, init: string, u: set<string>, p: set<set<string>>,
                                        states: seq<State>, i: int, x: string, c: string)
    requires u <= m.Keys && Minimized(m, init, u, p, states)
    requires x in u && 0 <= i < |states| && states[i].name == Smallest(BlockOf(p, x)) && c in Symbols(m, u)
    ensures FirstTarget(m[x].transitions, c).Some?
    ensures InSome(p, FirstTarget(m[x].transitions, c).value)
    ensures states[i].isFinal == m[x].isFinal
    ensures Transition(Some(c), Smallest(BlockOf(p, FirstTarget(m[x].transitions, c).value))) in states[i].transitions
  {
    var blocks, reps := MinimizedLayout(m, init, u, p, states);
    LayoutAt(m, p, init, blocks, reps, states, i);
    var b := BlockOf(p, x);
    assert blocks[i] == b by {
      assert Smallest(b) in b && Smallest(blocks[i]) in blocks[i];
      assert Smallest(b) in blocks[i] * b;
    }
    var rep := reps[i];
    BlockStep(m, u, p, Symbols(m, u), rep, x, c);
    MappedHas(p, m[rep].transitions, Transition(Some(c), FirstTarget(m[rep].transitions, c).value));
  }

  /** The layout a minimization is built on. */
  lemma {:induction false} MinimizedLayout(m: map<string, State>, init: string, u: set<string>, p: set<set<string>>,
                                           states: seq<State>) returns (blocks: seq<set<string>>, reps: seq<string>)
    requires u <= m.Keys && Minimized(m, init, u, p, states)
    ensures Layout(m, p, init, blocks, reps, states)
    ensures (forall b :: b in p <==> b in blocks) && |states| > 0 && init in blocks[0]
  {
    blocks, reps :| && Layout(m, p, init, blocks, reps, states)
                    && (forall b :: b in p <==> b in blocks)
                    && |states| > 0 && init in blocks[0];
  }

  /** Two states of one block of the bisimulation's partition agree on
      finality and move into one block. */
  lemma {:induction false} BlockStep(m: map<string, State>, u: set<string>, p: set<set<string>>, alphabet: set<string>,
                                     x: string, y: string, c: string)
    requires u <= m.Keys && Disjoint(p) && Cover(p) == u && Bisimulation(m, u, alphabet, Together(u, p))
    requires SameBlock(p, x, y) && c in alphabet
    ensures x in m && y in m && m[x].isFinal == m[y].isFinal
    ensures FirstTarget(m[x].transitions, c).Some? && FirstTarget(m[y].transitions, c).Some?
    ensures InSome(p, FirstTarget(m[x].transitions, c).value) && InSome(p, FirstTarget(m[y].transitions, c).value)
    ensures BlockOf(p, FirstTarget(m[x].transitions, c).value) == BlockOf(p, FirstTarget(m[y].transitions, c).value)
  {
    assert x in Cover(p) && y in Cover(p);
    assert (x, y) in Together(u, p);
    var tx, ty := FirstTarget(m[x].transitions, c).value, FirstTarget(m[y].transitions, c).value;
    assert (tx, ty) in Together(u, p);
    var d :| d in p && tx in d && ty in d;
    BlockOfUnique(p, d, tx);
    BlockOfUnique(p, d, ty);
  }

  /** Renaming keeps every transition, with its target replaced by its block's name. */
  lemma {:induction false} MappedHas(p: set<set<string>>, ts: seq<Transition>, t: Transition)
    requires {} !in p && (forall t :: t in ts ==> InSome(p, t.target)) && t in ts
    ensures Transition(t.symbol, Smallest(BlockOf(p, t.target))) in Mapped(p, ts)
  {
    var k :| 0 <= k < |ts| && ts[k] == t;
    assert Mapped(p, ts)[k] == Transition(t.symbol, Smallest(BlockOf(p, t.target)));
  }

  /** The first state stands for the block of the initial state, and every
      accessible state's block has a state. */
  lemma {:induction false} QuotientNames(m: map<string, State>, init: string, u: set<string>, p: set<set<string>>,
                                         states: seq<State>, x: string)
    requires u <= m.Keys && Minimized(m, init, u, p, states) && x in u
    ensures init in u ==> states[0].name == Smallest(BlockOf(p, init))
    ensures Smallest(BlockOf(p, x)) in Names(states)
  {
    var blocks, reps := MinimizedLayout(m, init, u, p, states);
    LayoutAt(m, p, init, blocks, reps, states, 0);
    if init in u {
      assert init in Cover(p);
      BlockOfUnique(p, blocks[0], init);
    }
    assert x in Cover(p);
    StateOfBlock(m, p, init, blocks, reps, states, BlockOf(p, x));
  }
}
