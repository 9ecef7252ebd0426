/** `p1/automata/re_parser.py`: infix regular expressions to reverse Polish
    notation, and Thompson-style automata built from renamed copies. */
module RegexCompiler {
  import opened Automata

  /** The operator stack and the output of `_re_to_rpn`; the top of the
      stack is its last element. */
  datatype Shunting = Shunting(stack: seq<char>, out: string)

  /** Which pending operators a popping loop of `_re_to_rpn` takes: all
      down to the nearest `(`, only `.` ones, or all (the final flush). */
  datatype PopMode = ToOpen | DotsOnly | All

  predicate Pops(mode: PopMode, top: char)
  {
    match mode
    case ToOpen => top != '('
    case DotsOnly => top == '.'
    case All => true
  }

  /** Every character other than `+ . ( )` is copied to the output. */
  predicate IsOperand(c: char)
  {
    c != '+' && c != '.' && c != '(' && c != ')'
  }

  /** The operands of `s`, in order. */
  function Operands(s: string): string
    decreases |s|
  {
    if s == [] then [] else Operands(s[..|s| - 1]) + (if IsOperand(s[|s| - 1]) then [s[|s| - 1]] else [])
  }

  /** Open parentheses not yet closed. */
  function Depth(s: string): int
  {
    multiset(s)['('] as int - multiset(s)[')'] as int
  }

  /** Some prefix closes more parentheses than it opens: the `)` that does
      it finds no `(` on the stack. */
  ghost predicate Underflows(s: string)
  {
    exists i :: 0 <= i <= |s| && Depth(s[..i]) < 0
  }

  /** Move operators from the top of the stack to the output while `mode`
      allows. */
  function Unstack(stack: seq<char>, out: string, mode: PopMode): Shunting
    decreases |stack|
  {
    if |stack| > 0 && Pops(mode, stack[|stack| - 1]) then
      Unstack(stack[..|stack| - 1], out + [stack[|stack| - 1]], mode)
    else
      Shunting(stack, out)
  }

  /** One character of the loop of `_re_to_rpn`; a `)` that empties the
      stack without meeting `(` is the `IndexError` of `stack[-1]`. */
  function ShuntStep(st: Shunting, x: char): Result<Shunting>
  {
    if x == '+' then
      var u := Unstack(st.stack, st.out, ToOpen);
      Ok(Shunting(u.stack + [x], u.out))
    else if x == '.' then
      var u := Unstack(st.stack, st.out, DotsOnly);
      Ok(Shunting(u.stack + [x], u.out))
    else if x == '(' then
      Ok(Shunting(st.stack + [x], st.out))
    else if x == ')' then
      var u := Unstack(st.stack, st.out, ToOpen);
      if |u.stack| == 0 then Err(MalformedRegex) else Ok(Shunting(u.stack[..|u.stack| - 1], u.out))
    else
      Ok(Shunting(st.stack, st.out + [x]))
  }

  /** The stack and output after the loop has read `re`. */
  function Shunt(re: string): Result<Shunting>
    decreases |re|
  {
    if re == [] then Ok(Shunting([], []))
    else
      match Shunt(re[..|re| - 1])
      case Err(e) => Err(e)
      case Ok(st) => ShuntStep(st, re[|re| - 1])
  }

  /** What `_re_to_rpn` returns: the output followed by the flushed stack. */
  function Rpn(re: string): Result<string>
  {
    match Shunt(re)
    case Err(e) => Err(e)
    case Ok(st) => Ok(Unstack(st.stack, st.out, All).out)
  }

  /** The popping loops of `_re_to_rpn`. */
  method PopWhile(stack: seq<char>, out: string, mode: PopMode) returns (stack': seq<char>, out': string)
    ensures Shunting(stack', out') == Unstack(stack, out, mode)
  {
    stack', out' := stack, out;
    while |stack'| > 0 && Pops(mode, stack'[|stack'| - 1])
      invariant Unstack(stack', out', mode) == Unstack(stack, out, mode)
      decreases |stack'|
    {
      out' := out' + [stack'[|stack'| - 1]];
      stack' := stack'[..|stack'| - 1];
    }
  }

  /** `_re_to_rpn`. */
  method ReToRpn(re: string) returns (r: Result<string>)
    ensures r == Rpn(re)
  {
    var stack: seq<char> := [];
    var out: string := "";
    for i := 0 to |re|
      invariant Shunt(re[..i]) == Ok(Shunting(stack, out))
    {
      var x := re[i];
      assert re[..i + 1][..i] == re[..i];
      if x == '+' {
        stack, out := PopWhile(stack, out, ToOpen);
        stack := stack + [x];
      } else if x == '.' {
        stack, out := PopWhile(stack, out, DotsOnly);
        stack := stack + [x];
      } else if x == '(' {
        stack := stack + [x];
      } else if x == ')' {
        stack, out := PopWhile(stack, out, ToOpen);
        if |stack| == 0 {
          ShuntErrorStays(re, i + 1);
          return Err(MalformedRegex);
        }
        stack := stack[..|stack| - 1];
      } else {
        out := out + [x];
      }
    }
    assert re[..|re|] == re;
    stack, out := PopWhile(stack, out, All);
    r := Ok(out);
  }

  /** Once the loop has failed, reading more does not recover. */
  lemma {:induction false} ShuntErrorStays(re: string, i: nat)
    requires i <= |re| && Shunt(re[..i]).Err?
    ensures Shunt(re) == Err(Shunt(re[..i]).error)
    decreases |re| - i
  {
    if i < |re| {
      assert re[..i + 1][..i] == re[..i];
      ShuntErrorStays(re, i + 1);
    } else {
      assert re[..i] == re;
    }
  }

  lemma {:induction false} OperandsSnoc(s: string, c: char)
    ensures Operands(s + [c]) == Operands(s) + (if IsOperand(c) then [c] else [])
  {
    assert (s + [c])[..|s|] == s;
  }

  /** What a popping loop does: it moves a top segment of the stack, each
      character allowed by `mode`, to the output, and stops at an empty
      stack or at a character `mode` does not pop.  So a `+` pops every
      pending operator down to the nearest `(` and a `.` pops only pending
      `.`s: `.` binds tighter than `+`. */
  lemma {:induction false} UnstackMoves(stack: seq<char>, out: string, mode: PopMode)
    ensures |Unstack(stack, out, mode).stack| <= |stack|
    ensures Unstack(stack, out, mode).stack == stack[..|Unstack(stack, out, mode).stack|]
    ensures forall k :: |Unstack(stack, out, mode).stack| <= k < |stack| ==> Pops(mode, stack[k])
    ensures var rest := Unstack(stack, out, mode).stack; |rest| == 0 || !Pops(mode, rest[|rest| - 1])
    decreases |stack|
  {
    if |stack| > 0 && Pops(mode, stack[|stack| - 1]) {
      var rest := stack[..|stack| - 1];
      UnstackMoves(rest, out + [stack[|stack| - 1]], mode);
      var u := Unstack(rest, out + [stack[|stack| - 1]], mode);
      assert |u.stack| <= |rest|;
      assert rest[..|u.stack|] == stack[..|u.stack|];
      forall k | |u.stack| <= k < |stack| ensures Pops(mode, stack[k]) {
        if k < |rest| { assert stack[k] == rest[k]; }
      }
    }
  }

  /** Popping moves characters and loses none. */
  lemma {:induction false} UnstackMultiset(stack: seq<char>, out: string, mode: PopMode)
    ensures multiset(Unstack(stack, out, mode).stack) + multiset(Unstack(stack, out, mode).out)
            == multiset(stack) + multiset(out)
    decreases |stack|
  {
    if |stack| > 0 && Pops(mode, stack[|stack| - 1]) {
      var top := stack[|stack| - 1];
      var rest := stack[..|stack| - 1];
      assert stack == rest + [top];
      UnstackMultiset(rest, out + [top], mode);
    }
  }

  /** Only `(`, `+` and `.` are ever pushed. */
  predicate OperatorsOnly(stack: seq<char>)
    decreases |stack|
  {
    |stack| > 0 ==>
      var top := stack[|stack| - 1];
      (top == '(' || top == '+' || top == '.') && OperatorsOnly(stack[..|stack| - 1])
  }

  lemma {:induction false} OperatorsOnlyPush(stack: seq<char>, x: char)
    requires OperatorsOnly(stack) && (x == '(' || x == '+' || x == '.')
    ensures OperatorsOnly(stack + [x])
  {
    assert (stack + [x])[..|stack|] == stack;
  }

  /** A stack of operators holds no `)` and no operand. */
  lemma {:induction false} OperatorsOnlyChars(stack: seq<char>)
    requires OperatorsOnly(stack)
    ensures forall k :: 0 <= k < |stack| ==> !IsOperand(stack[k]) && stack[k] != ')'
    decreases |stack|
  {
    if |stack| > 0 {
      var rest := stack[..|stack| - 1];
      OperatorsOnlyChars(rest);
      forall k | 0 <= k < |stack| ensures !IsOperand(stack[k]) && stack[k] != ')' {
        if k < |rest| { assert stack[k] == rest[k]; }
      }
    }
  }

  /** The loop's state after reading `p`: the stack holds only `(`, `+` and
      `.`, as many `(` as are still open; the output holds no parenthesis,
      every operand read so far in order, and every `+` and `.` read so far
      that is not on the stack. */
  ghost predicate Tracks(p: string, st: Shunting)
  {
    && OperatorsOnly(st.stack)
    && multiset(st.stack)['('] as int == Depth(p)
    && multiset(st.out)['('] == 0 && multiset(st.out)[')'] == 0
    && Operands(st.out) == Operands(p)
    && multiset(st.out)['+'] + multiset(st.stack)['+'] == multiset(p)['+']
    && multiset(st.out)['.'] + multiset(st.stack)['.'] == multiset(p)['.']
  }

  /** Popping operators that are not `(` keeps what `Tracks` says, with
      the popped `(`-free segment moved to the output. */
  lemma {:induction false} UnstackTracks(p: string, st: Shunting, mode: PopMode)
    requires Tracks(p, st) && mode != All
    ensures Tracks(p, Unstack(st.stack, st.out, mode))
    decreases |st.stack|
  {
    if |st.stack| > 0 && Pops(mode, st.stack[|st.stack| - 1]) {
      var top := st.stack[|st.stack| - 1];
      var rest := st.stack[..|st.stack| - 1];
      assert st.stack == rest + [top];
      assert top == '+' || top == '.';
      OperandsSnoc(st.out, top);
      UnstackTracks(p, Shunting(rest, st.out + [top]), mode);
    }
  }

  /** The flush at the end leaves no operand behind and adds no operand. */
  lemma {:induction false} FlushOperands(stack: seq<char>, out: string)
    requires OperatorsOnly(stack)
    ensures Operands(Unstack(stack, out, All).out) == Operands(out)
    decreases |stack|
  {
    if |stack| > 0 {
      var top := stack[|stack| - 1];
      OperandsSnoc(out, top);
      FlushOperands(stack[..|stack| - 1], out + [top]);
    }
  }

  /** The prefix `p + [x]` underflows iff `p` does or `x` is a `)` closing
      more than is open. */
  lemma {:induction false} UnderflowsSnoc(p: string, x: char)
    ensures Underflows(p + [x]) <==> Underflows(p) || Depth(p + [x]) < 0
  {
    var q := p + [x];
    if Underflows(q) && Depth(q) >= 0 {
      var i :| 0 <= i <= |q| && Depth(q[..i]) < 0;
      assert i < |q|;
      assert q[..i] == p[..i];
    }
    if Underflows(p) {
      var i :| 0 <= i <= |p| && Depth(p[..i]) < 0;
      assert q[..i] == p[..i];
    }
    if Depth(q) < 0 {
      assert q[..|q|] == q;
    }
  }

  /** A `+` or a `.` keeps `Tracks`. */
  lemma {:induction false} StepOperatorTracks(p: string, st: Shunting, x: char)
    requires Tracks(p, st) && (x == '+' || x == '.')
    ensures ShuntStep(st, x).Ok? && Tracks(p + [x], ShuntStep(st, x).value)
  {
    var mode := if x == '.' then DotsOnly else ToOpen;
    UnstackTracks(p, st, mode);
    var u := Unstack(st.stack, st.out, mode);
    var w := Shunting(u.stack + [x], u.out);
    assert ShuntStep(st, x) == Ok(w);
    var mp, ms := multiset(p + [x]), multiset(w.stack);
    assert mp == multiset(p) + multiset{x};
    assert ms == multiset(u.stack) + multiset{x};
    assert ms['('] == multiset(u.stack)['('] && mp['('] == multiset(p)['('] && mp[')'] == multiset(p)[')'];
    assert Depth(p + [x]) == Depth(p);
    assert multiset(w.out)['+'] + ms['+'] == mp['+'];
    assert multiset(w.out)['.'] + ms['.'] == mp['.'];
    OperandsSnoc(p, x);
    OperatorsOnlyPush(u.stack, x);
  }

  /** A `)` fails when no `(` is open and otherwise keeps `Tracks`. */
  lemma {:induction false} StepCloseTracks(p: string, st: Shunting)
    requires Tracks(p, st)
    ensures ShuntStep(st, ')').Err? <==> Depth(p) == 0
    ensures ShuntStep(st, ')').Err? ==> ShuntStep(st, ')').error == MalformedRegex
    ensures ShuntStep(st, ')').Ok? ==> Tracks(p + [')'], ShuntStep(st, ')').value)
  {
    UnstackTracks(p, st, ToOpen);
    UnstackMoves(st.stack, st.out, ToOpen);
    var u := Unstack(st.stack, st.out, ToOpen);
    if |u.stack| == 0 {
      assert multiset(u.stack)['('] == 0;
      assert ShuntStep(st, ')') == Err(MalformedRegex);
    } else {
      var v := u.stack[..|u.stack| - 1];
      assert u.stack == v + ['('];
      var w := Shunting(v, u.out);
      assert ShuntStep(st, ')') == Ok(w);
      CloseTracks(p, u, v);
    }
  }

  lemma {:induction false} CloseTracks(p: string, u: Shunting, v: seq<char>)
    requires Tracks(p, u) && u.stack == v + ['(']
    ensures Depth(p) > 0 && Tracks(p + [')'], Shunting(v, u.out))
  {
    var mp, mu := multiset(p + [')']), multiset(u.stack);
    assert mp == multiset(p) + multiset{')'};
    assert mu == multiset(v) + multiset{'('};
    assert mu['('] == multiset(v)['('] + 1;
    assert mu['+'] == multiset(v)['+'] && mu['.'] == multiset(v)['.'];
    assert mp['('] == multiset(p)['('] && mp[')'] == multiset(p)[')'] + 1;
    assert mp['+'] == multiset(p)['+'] && mp['.'] == multiset(p)['.'];
    OperandsSnoc(p, ')');
  }

  /** A `(` or an operand keeps `Tracks`. */
  lemma {:induction false} StepOtherTracks(p: string, st: Shunting, x: char)
    requires Tracks(p, st) && x != '+' && x != '.' && x != ')'
    ensures ShuntStep(st, x).Ok? && Tracks(p + [x], ShuntStep(st, x).value)
  {
    assert multiset(p + [x]) == multiset(p) + multiset{x};
    OperandsSnoc(p, x);
    if x == '(' {
      assert multiset(st.stack + [x]) == multiset(st.stack) + multiset{x};
      OperatorsOnlyPush(st.stack, x);
    } else {
      assert multiset(st.out + [x]) == multiset(st.out) + multiset{x};
      OperandsSnoc(st.out, x);
    }
  }

  /** The loop fails exactly when some prefix closes more than it opens,
      and otherwise ends in a state `Tracks` describes. */
  lemma {:induction false} ShuntTracks(re: string)
    ensures Shunt(re).Err? <==> Underflows(re)
    ensures Shunt(re).Err? ==> Shunt(re).error == MalformedRegex
    ensures Shunt(re).Ok? ==> Tracks(re, Shunt(re).value) && Depth(re) >= 0
    decreases |re|
  {
    if re == [] {
      assert Operands(re) == [];
      assert forall i :: 0 <= i <= |re| ==> re[..i] == [];
    } else {
      var p := re[..|re| - 1];
      var x := re[|re| - 1];
      assert re == p + [x];
      ShuntTracks(p);
      UnderflowsSnoc(p, x);
      assert multiset(re) == multiset(p) + multiset{x};
      if Shunt(p).Ok? {
        if x == '+' || x == '.' {
          StepOperatorTracks(p, Shunt(p).value, x);
        } else if x == ')' {
          StepCloseTracks(p, Shunt(p).value);
        } else {
          StepOtherTracks(p, Shunt(p).value, x);
        }
      }
    }
  }

  /** `_re_to_rpn` raises exactly when some prefix closes a parenthesis that
      was never opened. */
  lemma {:induction false} RpnMalformed(re: string)
    ensures Rpn(re).Err? <==> Underflows(re)
    ensures Rpn(re).Err? ==> Rpn(re).error == MalformedRegex
  {
    ShuntTracks(re);
  }

  /** Otherwise its output holds the operands of the input in their order
      (so `*` and `λ` too), every `+` and `.` of the input, no `)`, and one
      `(` per parenthesis left open: none when the input is balanced. */
  lemma {:induction false} RpnContents(re: string)
    requires Rpn(re).Ok?
    ensures Operands(Rpn(re).value) == Operands(re)
    ensures multiset(Rpn(re).value)['+'] == multiset(re)['+'] && multiset(Rpn(re).value)['.'] == multiset(re)['.']
    ensures multiset(Rpn(re).value)[')'] == 0 && multiset(Rpn(re).value)['('] as int == Depth(re)
  {
    ShuntTracks(re);
    var st := Shunt(re).value;
    FlushContents(re, st);
  }

  lemma {:induction false} FlushContents(re: string, st: Shunting)
    requires Tracks(re, st)
    ensures Operands(Unstack(st.stack, st.out, All).out) == Operands(re)
    ensures var r := Unstack(st.stack, st.out, All).out;
      multiset(r)['+'] == multiset(re)['+'] && multiset(r)['.'] == multiset(re)['.']
    ensures var r := Unstack(st.stack, st.out, All).out;
      multiset(r)[')'] == 0 && multiset(r)['('] as int == Depth(re)
  {
    UnstackMoves(st.stack, st.out, All);
    UnstackMultiset(st.stack, st.out, All);
    FlushOperands(st.stack, st.out);
    var u := Unstack(st.stack, st.out, All);
    assert |u.stack| == 0;
    assert multiset(u.out) == multiset(st.stack) + multiset(st.out);
    OperatorsOnlyChars(st.stack);
    assert ')' !in st.stack;
  }

  /** The decimal digit `d`. */
  function Digit(d: nat): char
    requires d < 10
  {
    "0123456789"[d]
  }

  /** `str(n)`: the decimal numeral of `n`. */
  function NatName(n: nat): (s: string)
    ensures |s| > 0 && forall k :: 0 <= k < |s| ==> '0' <= s[k] <= '9'
    decreases n
  {
    if n < 10 then [Digit(n)] else NatName(n / 10) + [Digit(n % 10)]
  }

  /** The value of a numeral. */
  function DecimalValue(s: string): nat
    requires forall k :: 0 <= k < |s| ==> '0' <= s[k] <= '9'
  {
    if s == [] then 0 else DecimalValue(s[..|s| - 1]) * 10 + (s[|s| - 1] as int - '0' as int)
  }

  lemma {:induction false} DecimalRoundTrip(n: nat)
    ensures DecimalValue(NatName(n)) == n
    decreases n
  {
    if n >= 10 {
      var s := NatName(n);
      assert s[..|s| - 1] == NatName(n / 10);
      DecimalRoundTrip(n / 10);
    }
  }

  /** Different numbers get different names. */
  lemma {:induction false} NatNameInjective(m: nat, n: nat)
    requires NatName(m) == NatName(n)
    ensures m == n
  {
    DecimalRoundTrip(m);
    DecimalRoundTrip(n);
  }

  /** The `state_dict` of `_rename_states`: the k-th state's name goes to
      `str(index + k)`. */
  function Renaming(states: seq<State>, index: nat): (m: map<string, string>)
    requires DistinctNames(states)
    ensures m.Keys == Names(states)
    ensures forall k :: 0 <= k < |states| ==> m[states[k].name] == NatName(index + k)
  {
    NamesIndexed(states);
    map k | 0 <= k < |states| :: states[k].name := NatName(index + k)
  }

  /** Transitions with their targets sent through `m`. */
  function Retarget(ts: seq<Transition>, m: map<string, string>): (r: seq<Transition>)
    requires forall t :: t in ts ==> t.target in m
    ensures |r| == |ts| && forall j :: 0 <= j < |ts| ==> r[j] == Transition(ts[j].symbol, m[ts[j].target])
  {
    if ts == [] then [] else [Transition(ts[0].symbol, m[ts[0].target])] + Retarget(ts[1..], m)
  }

  /** A state renamed through `m`. */
  function RenamedState(st: State, m: map<string, string>): State
    requires st.name in m && forall t :: t in st.transitions ==> t.target in m
  {
    State(m[st.name], st.isFinal, Retarget(st.transitions, m))
  }

  /** The names `str(lo) … str(hi - 1)`. */
  function NatNames(lo: nat, hi: nat): set<string>
  {
    set k | lo <= k < hi :: NatName(k)
  }

  /** The inner loop of `_rename_states`: rewrite every target. */
  method RetargetLoop(ts: seq<Transition>, m: map<string, string>) returns (r: seq<Transition>)
    requires forall t :: t in ts ==> t.target in m
    ensures r == Retarget(ts, m)
  {
    r := [];
    for j := 0 to |ts|
      invariant |r| == j && forall i :: 0 <= i < j ==> r[i] == Transition(ts[i].symbol, m[ts[i].target])
    {
      r := r + [Transition(ts[j].symbol, m[ts[j].target])];
    }
  }

  /** The first loop of `_rename_states`: fill `state_dict`. */
  method StateDict(states: seq<State>, index: nat) returns (stateDict: map<string, string>, next: nat)
    requires DistinctNames(states)
    ensures next == index + |states|
    ensures stateDict == Renaming(states, index)
  {
    stateDict := map[];
    next := index;
    for k := 0 to |states|
      invariant next == index + k
      invariant stateDict.Keys == Names(states[..k])
      invariant forall j :: 0 <= j < k ==> stateDict[states[j].name] == NatName(index + j)
    {
      NamesSnoc(states, k);
      stateDict := stateDict[states[k].name := NatName(next)];
      next := next + 1;
    }
    assert states[..|states|] == states;
    DictIsRenaming(states, index, stateDict);
  }

  lemma {:induction false} DictIsRenaming(states: seq<State>, index: nat, d: map<string, string>)
    requires DistinctNames(states)
    requires d.Keys == Names(states)
    requires forall j :: 0 <= j < |states| ==> d[states[j].name] == NatName(index + j)
    ensures d == Renaming(states, index)
  {
    SameByName(states, d, Renaming(states, index));
  }

  /** `REParser._rename_states`: the k-th state becomes `str(index + k)`,
      every target follows, and the next free index is returned. */
  method RenameStates(states: seq<State>, index: nat) returns (renamed: seq<State>, next: nat)
    requires Valid(FiniteAutomaton(states))
    ensures next == index + |states|
    ensures |renamed| == |states|
    ensures renamed == Renamed(states, index)
  {
    var stateDict;
    stateDict, next := StateDict(states, index);
    ghost var goal := Renamed(states, index);
    Renamable(states, stateDict);
    renamed := [];
    for k := 0 to |states|
      invariant renamed == goal[..k]
    {
      var st := states[k];
      var ts := RetargetLoop(st.transitions, stateDict);
      assert goal[k] == RenamedState(st, stateDict);
      PrefixSnoc(goal, k);
      renamed := renamed + [State(stateDict[st.name], st.isFinal, ts)];
    }
    PrefixAll(goal);
  }

  /** Every name and every target of a valid list of states is a key of `m`. */
  lemma {:induction false} Renamable(states: seq<State>, m: map<string, string>)
    requires Valid(FiniteAutomaton(states))
    requires m.Keys == Names(states)
    ensures forall j :: 0 <= j < |states| ==> states[j].name in m
    ensures forall j, t :: 0 <= j < |states| && t in states[j].transitions ==> t.target in m
  {
    assert forall j :: 0 <= j < |states| ==> states[j].name in Names(states);
    assert forall j, t :: 0 <= j < |states| && t in states[j].transitions ==> t.target in Targets(states);
  }

  /** The renamed states are named `str(index) … str(index + n - 1)`. */
  lemma {:induction false} RenamedNames(states: seq<State>, index: nat, renamed: seq<State>)
    requires Valid(FiniteAutomaton(states))
    requires |renamed| == |states|
    requires forall k :: 0 <= k < |states| ==> renamed[k] == RenamedState(states[k], Renaming(states, index))
    ensures forall k :: 0 <= k < |renamed| ==> renamed[k].name == NatName(index + k)
    ensures Names(renamed) == NatNames(index, index + |states|)
    ensures DistinctNames(renamed)
  {
    assert forall k :: 0 <= k < |renamed| ==> renamed[k].name == NatName(index + k);
    NumberedNames(renamed, index);
  }

  /** States named by consecutive numbers have distinct names, and those
      names are the numbers' names. */
  lemma {:induction false} NumberedNames(states: seq<State>, index: nat)
    requires forall k :: 0 <= k < |states| ==> states[k].name == NatName(index + k)
    ensures Names(states) == NatNames(index, index + |states|)
    ensures DistinctNames(states)
  {
    forall x | x in NatNames(index, index + |states|) ensures x in Names(states) {
      var k :| index <= k < index + |states| && x == NatName(k);
      assert states[k - index].name == x;
    }
    forall i, j | 0 <= i < j < |states| ensures states[i].name != states[j].name {
      if states[i].name == states[j].name {
        NatNameInjective(index + i, index + j);
      }
    }
  }

  /** The targets of two lists of states put together. */
  lemma {:induction false} TargetsAppend(states1: seq<State>, states2: seq<State>)
    ensures Targets(states1 + states2) == Targets(states1) + Targets(states2)
  {
    var all := states1 + states2;
    forall x | x in Targets(all) ensures x in Targets(states1) + Targets(states2) {
      var i, t :| 0 <= i < |all| && t in all[i].transitions && t.target == x;
      if i < |states1| {
        assert t in states1[i].transitions;
      } else {
        assert t in states2[i - |states1|].transitions;
      }
    }
    forall x | x in Targets(states1) ensures x in Targets(all) {
      var i, t :| 0 <= i < |states1| && t in states1[i].transitions && t.target == x;
      assert t in all[i].transitions;
    }
    forall x | x in Targets(states2) ensures x in Targets(all) {
      var i, t :| 0 <= i < |states2| && t in states2[i].transitions && t.target == x;
      assert t in all[|states1| + i].transitions;
    }
  }

  /** States that only gained transitions to `extra` only point at what
      their originals pointed at, or into `extra`. */
  lemma {:induction false} TargetsWithin(states: seq<State>, base: seq<State>, extra: set<string>)
    requires |states| == |base|
    requires forall k, t :: 0 <= k < |states| && t in states[k].transitions ==> t in base[k].transitions || t.target in extra
    ensures Targets(states) <= Targets(base) + extra
  {
    forall x | x in Targets(states) ensures x in Targets(base) + extra {
      var i, t :| 0 <= i < |states| && t in states[i].transitions && t.target == x;
      if t !in base[i].transitions {
        assert x in extra;
      }
    }
  }

  /** A state whose only transition is a lambda one to `x` points at `x` at most. */
  lemma {:induction false} TargetsOfOne(st: State, x: string)
    requires forall t :: t in st.transitions <==> t == Transition(None, x)
    ensures Targets([st]) <= {x}
  {
    forall y | y in Targets([st]) ensures y == x {
      var i, t :| 0 <= i < 1 && t in [st][i].transitions && t.target == y;
    }
  }

  /** A state whose only transitions are lambda ones to `x` and `y` points at
      those two at most, and at `y`. */
  lemma {:induction false} TargetsOfTwo(st: State, x: string, y: string)
    requires forall t :: t in st.transitions <==> t == Transition(None, x) || t == Transition(None, y)
    ensures Targets([st]) <= {x, y} && y in Targets([st])
  {
    forall z | z in Targets([st]) ensures z == x || z == y {
      var i, t :| 0 <= i < 1 && t in [st][i].transitions && t.target == z;
    }
    assert Transition(None, y) in [st][0].transitions;
  }

  /** Consecutive ranges of numbered names join up. */
  lemma {:induction false} NatNamesSplit(lo: nat, mid: nat, hi: nat)
    requires lo <= mid <= hi
    ensures NatNames(lo, mid) + NatNames(mid, hi) == NatNames(lo, hi)
  {
    forall x | x in NatNames(lo, hi) ensures x in NatNames(lo, mid) + NatNames(mid, hi) {
      var k :| lo <= k < hi && x == NatName(k);
      if k < mid {
        assert x in NatNames(lo, mid);
      } else {
        assert x in NatNames(mid, hi);
      }
    }
  }

  /** The renamed states only point at each other. */
  lemma {:induction false} RenamedTargets(states: seq<State>, index: nat, renamed: seq<State>)
    requires Valid(FiniteAutomaton(states))
    requires |renamed| == |states|
    requires forall k :: 0 <= k < |states| ==> renamed[k] == RenamedState(states[k], Renaming(states, index))
    ensures Targets(renamed) <= NatNames(index, index + |states|)
  {
    var m := Renaming(states, index);
    forall x | x in Targets(renamed) ensures x in NatNames(index, index + |states|) {
      var i, t :| 0 <= i < |renamed| && t in renamed[i].transitions && t.target == x;
      var j :| 0 <= j < |renamed[i].transitions| && renamed[i].transitions[j] == t;
      var u := states[i].transitions[j];
      assert renamed[i].transitions == Retarget(states[i].transitions, m);
      assert x == m[u.target];
      assert u.target in Targets(states);
      var k :| 0 <= k < |states| && states[k].name == u.target;
      assert m[u.target] == NatName(index + k);
    }
  }

  /** The renamed copy `_rename_states` leaves in place of `states`: a
      valid list of states named `str(index) … str(index + n - 1)`. */
  function Renamed(states: seq<State>, index: nat): (r: seq<State>)
    requires Valid(FiniteAutomaton(states))
    ensures |r| == |states|
    ensures forall k :: 0 <= k < |states| ==> r[k] == RenamedState(states[k], Renaming(states, index))
    ensures forall k :: 0 <= k < |states| ==> r[k].name == NatName(index + k) && r[k].isFinal == states[k].isFinal
    ensures DistinctNames(r) && Names(r) == NatNames(index, index + |states|)
    ensures Targets(r) <= NatNames(index, index + |states|)
  {
    var m := Renaming(states, index);
    var r := seq(|states|, k requires 0 <= k < |states| => RenamedState(states[k], m));
    RenamedNames(states, index, r);
    RenamedTargets(states, index, r);
    r
  }

  /** `_create_automaton_empty`: one non-final state `0`. */
  function EmptyAutomaton(): (a: FiniteAutomaton)
    ensures Valid(a) && |a.states| > 0 && !SomeFinal(a)
  {
    FiniteAutomaton([State("0", false, [])])
  }

  /** `_create_automaton_lambda`: one final state `0`. */
  function LambdaAutomaton(): (a: FiniteAutomaton)
    ensures Valid(a) && |a.states| > 0 && Alphabet(a.states) == {}
  {
    FiniteAutomaton([State("0", true, [])])
  }

  /** The characters `\s` matches in a Python `str` pattern (those of
      `str.isspace`). */
  predicate IsSpace(c: char)
  {
    || c == ' ' || '\t' <= c <= '\r' || '\U{1c}' <= c <= '\U{1f}' || c == '\U{85}' || c == '\U{a0}'
    || c == '\U{1680}' || '\U{2000}' <= c <= '\U{200a}' || c == '\U{2028}' || c == '\U{2029}'
    || c == '\U{202f}' || c == '\U{205f}' || c == '\U{3000}'
  }

  /** `_create_automaton_symbol`: `0 -c-> 1`, with `1` final.  The source
      writes the line `0-c->1` and reads it back; the transition pattern
      wants a non-space symbol, so a space (or a line break, which splits
      the line) makes `AutomataFormat.read` raise. */
  function SymbolAutomaton(c: char): (r: Result<FiniteAutomaton>)
    ensures r.Err? <==> IsSpace(c)
    ensures r.Err? ==> r.error == FormatParseError
    ensures r.Ok? ==> Valid(r.value) && |r.value.states| > 0 && Alphabet(r.value.states) == {[c]}
  {
    if IsSpace(c) then Err(FormatParseError)
    else
      var a := FiniteAutomaton([State("0", false, [Transition(Some([c]), "1")]), State("1", true, [])]);
      SymbolShape(c, a);
      Ok(a)
  }

  lemma {:induction false} SymbolShape(c: char, a: FiniteAutomaton)
    requires a == FiniteAutomaton([State("0", false, [Transition(Some([c]), "1")]), State("1", true, [])])
    ensures Valid(a) && Alphabet(a.states) == {[c]}
  {
    var t := Transition(Some([c]), "1");
    assert t in a.states[0].transitions;
    assert forall i, u :: 0 <= i < |a.states| && u in a.states[i].transitions ==> u == t;
    assert Targets(a.states) == {"1"};
    assert a.states[1].name in Names(a.states);
    assert [c] in Alphabet(a.states);
  }

  /** `st` is `base` with the transitions in `extra` added, and the same
      name and finality. */
  ghost predicate Extended(st: State, base: State, extra: set<Transition>)
  {
    && st.name == base.name && st.isFinal == base.isFinal
    && forall t :: t in st.transitions <==> t in base.transitions || t in extra
  }

  /** The automaton `_create_automaton_star` builds from the renamed copy
      `copy` of n states: the copy, with a lambda transition to the new
      final state `str(n)` from the initial state and from every final
      state, and `str(n)` going back to `0` on lambda. */
  ghost predicate StarShapeOf(copy: seq<State>, b: FiniteAutomaton)
  {
    var n := |copy|;
    var loop := Transition(None, NatName(n));
    && |b.states| == n + 1
    && (forall k :: 0 <= k < n ==>
          Extended(b.states[k], copy[k], if copy[k].isFinal || k == 0 then {loop} else {}))
    && b.states[n].name == NatName(n) && b.states[n].isFinal
    && (forall t :: t in b.states[n].transitions <==> t == Transition(None, NatName(0)))
  }

  ghost predicate StarShape(a: FiniteAutomaton, b: FiniteAutomaton)
    requires Valid(a)
  {
    StarShapeOf(Renamed(a.states, 0), b)
  }

  /** Whether some state of `a` is final. */
  predicate SomeFinal(a: FiniteAutomaton)
  {
    exists k :: 0 <= k < |a.states| && a.states[k].isFinal
  }

  /** `st` is `base` demoted to non-final, with a lambda transition to
      `target` when `base` was final. */
  ghost predicate Demoted(st: State, base: State, target: string)
  {
    && st.name == base.name && !st.isFinal
    && forall t :: t in st.transitions <==> t in base.transitions || (base.isFinal && t == Transition(None, target))
  }

  /** The automaton `_create_automaton_concat` builds from the renamed
      copies: the first copy with its final states demoted and sent on
      lambda to the second copy's initial state `str(n1)`, then the second
      copy unchanged. */
  ghost predicate ConcatShapeOf(copy1: seq<State>, copy2: seq<State>, b: FiniteAutomaton)
  {
    && |b.states| == |copy1| + |copy2|
    && (forall k :: 0 <= k < |copy1| ==> Demoted(b.states[k], copy1[k], NatName(|copy1|)))
    && b.states[|copy1|..] == copy2
  }

  ghost predicate ConcatShape(a1: FiniteAutomaton, a2: FiniteAutomaton, b: FiniteAutomaton)
    requires Valid(a1) && Valid(a2)
  {
    ConcatShapeOf(Renamed(a1.states, 0), Renamed(a2.states, |a1.states|), b)
  }

  /** The automaton `_create_automaton_union` builds from the renamed
      copies: a new non-final initial state `0` with lambda transitions to
      `1` and to the second copy's initial state `str(1 + n1)`, then both
      copies. */
  ghost predicate UnionShapeOf(copy1: seq<State>, copy2: seq<State>, b: FiniteAutomaton)
  {
    && |b.states| == 1 + |copy1| + |copy2|
    && b.states[0].name == "0" && !b.states[0].isFinal
    && (forall t :: t in b.states[0].transitions <==>
          t == Transition(None, "1") || t == Transition(None, NatName(1 + |copy1|)))
    && b.states[1..1 + |copy1|] == copy1 && b.states[1 + |copy1|..] == copy2
  }

  ghost predicate UnionShape(a1: FiniteAutomaton, a2: FiniteAutomaton, b: FiniteAutomaton)
    requires Valid(a1) && Valid(a2)
  {
    UnionShapeOf(Renamed(a1.states, 1), Renamed(a2.states, 1 + |a1.states|), b)
  }

  /** The loop of `_create_automaton_star` over the final states: each gets
      a lambda transition to `target`. */
  method LinkFinals(states: seq<State>, target: string) returns (r: seq<State>)
    ensures |r| == |states|
    ensures forall k :: 0 <= k < |states| ==>
              Extended(r[k], states[k], if states[k].isFinal then {Transition(None, target)} else {})
  {
    r := states;
    for k := 0 to |states|
      invariant |r| == |states|
      invariant forall j :: 0 <= j < k ==>
                  Extended(r[j], states[j], if states[j].isFinal then {Transition(None, target)} else {})
      invariant forall j :: k <= j < |states| ==> r[j] == states[j]
    {
      if states[k].isFinal {
        var st := AddTransitions(states[k], [Transition(None, target)]);
        r := r[k := st];
      } else {
        assert Extended(r[k], states[k], {});
      }
    }
  }

  /** `_create_automaton_star`. */
  method Star(a: FiniteAutomaton) returns (r: Result<FiniteAutomaton>)
    requires Valid(a)
    ensures r.Ok? <==> |a.states| > 0
    ensures r.Err? ==> r.error == NoInitialState
    ensures r.Ok? ==> Valid(r.value) && StarShape(a, r.value)
  {
    var renamed, n := RenameStates(a.states, 0);
    var linked := LinkFinals(renamed, NatName(n));
    if |linked| == 0 {
      return Err(NoInitialState);
    }
    var first := AddTransitions(linked[0], [Transition(None, NatName(n))]);
    var fin := AddTransitions(State(NatName(n), true, []), [Transition(None, first.name)]);
    var all := linked[0 := first] + [fin];
    StarBuilt(a, renamed, NatName(n), linked, first, fin, all);
    r := Ok(FiniteAutomaton(all));
  }

  /** The star assembled from the linked copy, the initial state with its
      extra transition and the new final state. */
  lemma {:induction false} StarBuilt(a: FiniteAutomaton, renamed: seq<State>, target: string,
                                     linked: seq<State>, first: State, fin: State, all: seq<State>)
    requires Valid(a) && renamed == Renamed(a.states, 0) && target == NatName(|a.states|)
    requires |linked| == |renamed| > 0
    requires forall k :: 0 <= k < |renamed| ==>
               Extended(linked[k], renamed[k], if renamed[k].isFinal then {Transition(None, target)} else {})
    requires first.name == linked[0].name && first.isFinal == linked[0].isFinal
    requires forall t :: t in first.transitions <==> t in linked[0].transitions || t in [Transition(None, target)]
    requires fin.name == target && fin.isFinal
    requires forall t :: t in fin.transitions <==> t in [] || t in [Transition(None, first.name)]
    requires all == linked[0 := first] + [fin]
    ensures NewAutomaton(all) == Ok(FiniteAutomaton(all)) && Valid(FiniteAutomaton(all))
    ensures StarShape(a, FiniteAutomaton(all))
  {
    StarLayout(renamed, target, linked, first, fin, all);
    StarFacts(renamed, target, all);
  }

  /** The extra transitions the k-th state of the star gets. */
  function StarExtra(copy: seq<State>, k: nat, target: string): set<Transition>
    requires k < |copy|
  {
    if copy[k].isFinal || k == 0 then {Transition(None, target)} else {}
  }

  /** Where the states of the star come from, state by state. */
  lemma {:induction false} StarLayout(renamed: seq<State>, target: string, linked: seq<State>, first: State, fin: State, all: seq<State>)
    requires |linked| == |renamed| > 0
    requires forall k :: 0 <= k < |renamed| ==>
               Extended(linked[k], renamed[k], if renamed[k].isFinal then {Transition(None, target)} else {})
    requires first.name == linked[0].name && first.isFinal == linked[0].isFinal
    requires forall t :: t in first.transitions <==> t in linked[0].transitions || t in [Transition(None, target)]
    requires fin.name == target && fin.isFinal
    requires forall t :: t in fin.transitions <==> t in [] || t in [Transition(None, first.name)]
    requires all == linked[0 := first] + [fin]
    ensures |all| == |renamed| + 1
    ensures forall k :: 0 <= k < |renamed| ==> Extended(all[k], renamed[k], StarExtra(renamed, k, target))
    ensures all[|renamed|].name == target && all[|renamed|].isFinal
    ensures forall t :: t in all[|renamed|].transitions <==> t == Transition(None, renamed[0].name)
  {
    forall k | 0 <= k < |renamed| ensures Extended(all[k], renamed[k], StarExtra(renamed, k, target)) {
      LinkedAt(renamed, target, linked, first, fin, k);
    }
    assert all[|renamed|] == fin && all[0] == first;
  }

  lemma {:induction false} StarFacts(renamed: seq<State>, target: string, all: seq<State>)
    requires |renamed| > 0
    requires forall k {:trigger renamed[k]} :: 0 <= k < |renamed| ==> renamed[k].name == NatName(k)
    requires Targets(renamed) <= NatNames(0, |renamed|)
    requires target == NatName(|renamed|)
    requires |all| == |renamed| + 1
    requires forall k :: 0 <= k < |renamed| ==> Extended(all[k], renamed[k], StarExtra(renamed, k, target))
    requires all[|renamed|].name == target && all[|renamed|].isFinal
    requires forall t :: t in all[|renamed|].transitions <==> t == Transition(None, renamed[0].name)
    ensures Valid(FiniteAutomaton(all))
    ensures StarShapeOf(renamed, FiniteAutomaton(all))
  {
    var n := |renamed|;
    StarNames(renamed, target, all);
    StarTargets(renamed, target, all);
    TargetsOfOne(all[n], renamed[0].name);
    StarValid(all, n, Targets(renamed));
  }

  /** One state of the star after the loop and the initial state's extra transition. */
  lemma {:induction false} LinkedAt(renamed: seq<State>, target: string, linked: seq<State>, first: State, fin: State, k: nat)
    requires k < |linked| == |renamed|
    requires Extended(linked[k], renamed[k], if renamed[k].isFinal then {Transition(None, target)} else {})
    requires first.name == linked[0].name && first.isFinal == linked[0].isFinal
    requires forall t :: t in first.transitions <==> t in linked[0].transitions || t in [Transition(None, target)]
    ensures Extended((linked[0 := first] + [fin])[k], renamed[k], StarExtra(renamed, k, target))
  {
    assert (linked[0 := first] + [fin])[k] == if k == 0 then first else linked[k];
  }

  /** The star's states are named `0 … n`. */
  lemma {:induction false} StarNames(renamed: seq<State>, target: string, all: seq<State>)
    requires |all| == |renamed| + 1
    requires forall k {:trigger renamed[k]} :: 0 <= k < |renamed| ==> renamed[k].name == NatName(k)
    requires forall k :: 0 <= k < |renamed| ==> Extended(all[k], renamed[k], StarExtra(renamed, k, target))
    requires all[|renamed|].name == target == NatName(|renamed|)
    ensures DistinctNames(all) && Names(all) == NatNames(0, |all|)
  {
    forall k | 0 <= k < |all| ensures all[k].name == NatName(k) {
      if k < |renamed| {
        assert Extended(all[k], renamed[k], StarExtra(renamed, k, target));
      }
    }
    NumberedNames(all, 0);
  }

  /** The copied states of the star point where they did, or at the new final state. */
  lemma {:induction false} StarTargets(renamed: seq<State>, target: string, all: seq<State>)
    requires |all| == |renamed| + 1
    requires forall k :: 0 <= k < |renamed| ==> Extended(all[k], renamed[k], StarExtra(renamed, k, target))
    ensures Targets(all[..|renamed|]) <= Targets(renamed) + {target}
  {
    var n := |renamed|;
    forall k, t | 0 <= k < n && t in all[..n][k].transitions
      ensures t in renamed[k].transitions || t.target in {target}
    {
      assert Extended(all[k], renamed[k], StarExtra(renamed, k, target));
    }
    TargetsWithin(all[..n], renamed, {target});
  }

  /** The star's states are valid: names `0 … n`, and every target is one of them. */
  lemma {:induction false} StarValid(all: seq<State>, n: nat, copyTargets: set<string>)
    requires n > 0 && |all| == n + 1
    requires DistinctNames(all) && Names(all) == NatNames(0, n + 1)
    requires copyTargets <= NatNames(0, n)
    requires Targets(all[..n]) <= copyTargets + {NatName(n)}
    requires Targets([all[n]]) <= {NatName(0)}
    ensures Valid(FiniteAutomaton(all))
  {
    assert all == all[..n] + [all[n]];
    TargetsAppend(all[..n], [all[n]]);
    NatNamesSplit(0, n, n + 1);
    assert NatName(n) in NatNames(n, n + 1);
    assert NatName(0) in NatNames(0, n);
  }

  /** The loop of `_create_automaton_concat` over the first copy's final
      states: each is sent on lambda to the second copy's initial state and
      made non-final; with no second state to point at, this fails. */
  method DemoteFinals(states1: seq<State>, states2: seq<State>) returns (r: Result<seq<State>>)
    ensures r.Err? <==> |states2| == 0 && exists k :: 0 <= k < |states1| && states1[k].isFinal
    ensures r.Err? ==> r.error == NoInitialState
    ensures r.Ok? ==> |r.value| == |states1| &&
                      forall k :: 0 <= k < |states1| ==> Demoted(r.value[k], states1[k], if |states2| > 0 then states2[0].name else "")
  {
    var target := if |states2| > 0 then states2[0].name else "";
    var out := states1;
    for k := 0 to |states1|
      invariant |out| == |states1|
      invariant forall j :: 0 <= j < k ==> !states1[j].isFinal || |states2| > 0
      invariant forall j :: 0 <= j < k ==> Demoted(out[j], states1[j], target)
      invariant forall j :: k <= j < |states1| ==> out[j] == states1[j]
    {
      if states1[k].isFinal {
        if |states2| == 0 {
          return Err(NoInitialState);
        }
        var st := AddTransitions(states1[k], [Transition(None, states2[0].name)]);
        out := out[k := st.(isFinal := false)];
      } else {
        assert Demoted(out[k], states1[k], target);
      }
    }
    r := Ok(out);
  }

  /** `_create_automaton_concat`. */
  method Concat(a1: FiniteAutomaton, a2: FiniteAutomaton) returns (r: Result<FiniteAutomaton>)
    requires Valid(a1) && Valid(a2)
    ensures r.Err? <==> |a2.states| == 0 && SomeFinal(a1)
    ensures r.Err? ==> r.error == NoInitialState
    ensures r.Ok? ==> Valid(r.value) && ConcatShape(a1, a2, r.value)
  {
    var states1, index := RenameStates(a1.states, 0);
    var states2, _ := RenameStates(a2.states, index);
    var demoted := DemoteFinals(states1, states2);
    if demoted.Err? {
      return Err(NoInitialState);
    }
    var all := demoted.value + states2;
    ConcatLayout(states1, states2, demoted.value, all);
    ConcatBuilt(a1, a2, all);
    r := NewAutomaton(all);
  }

  /** The concatenation assembled from the demoted first copy and the second copy. */
  lemma {:induction false} ConcatBuilt(a1: FiniteAutomaton, a2: FiniteAutomaton, all: seq<State>)
    requires Valid(a1) && Valid(a2)
    requires |all| == |a1.states| + |a2.states| && all[|a1.states|..] == Renamed(a2.states, |a1.states|)
    requires forall k :: 0 <= k < |a1.states| ==> Demoted(all[k], Renamed(a1.states, 0)[k], NatName(|a1.states|))
    requires |a2.states| == 0 ==> forall k :: 0 <= k < |a1.states| ==> !Renamed(a1.states, 0)[k].isFinal
    ensures Valid(FiniteAutomaton(all)) && ConcatShape(a1, a2, FiniteAutomaton(all))
  {
    ConcatFacts(Renamed(a1.states, 0), Renamed(a2.states, |a1.states|), all);
  }

  /** Where the states of the concatenation come from, state by state. */
  lemma {:induction false} ConcatLayout(copy1: seq<State>, copy2: seq<State>, demoted: seq<State>, all: seq<State>)
    requires |copy2| > 0 ==> copy2[0].name == NatName(|copy1|)
    requires |demoted| == |copy1|
    requires forall k :: 0 <= k < |copy1| ==> Demoted(demoted[k], copy1[k], if |copy2| > 0 then copy2[0].name else "")
    requires |copy2| == 0 ==> forall k :: 0 <= k < |copy1| ==> !copy1[k].isFinal
    requires all == demoted + copy2
    ensures |all| == |copy1| + |copy2| && all[|copy1|..] == copy2
    ensures forall k :: 0 <= k < |copy1| ==> Demoted(all[k], copy1[k], NatName(|copy1|))
  {
    forall k | 0 <= k < |copy1| ensures Demoted(all[k], copy1[k], NatName(|copy1|)) {
      assert all[k] == demoted[k];
      assert Demoted(demoted[k], copy1[k], if |copy2| > 0 then copy2[0].name else "");
    }
    assert all[|copy1|..] == copy2;
  }

  lemma {:induction false} ConcatFacts(copy1: seq<State>, copy2: seq<State>, all: seq<State>)
    requires forall k {:trigger copy1[k]} :: 0 <= k < |copy1| ==> copy1[k].name == NatName(k)
    requires Targets(copy1) <= NatNames(0, |copy1|)
    requires forall k :: 0 <= k < |copy2| ==> copy2[k].name == NatName(|copy1| + k)
    requires Targets(copy2) <= NatNames(|copy1|, |copy1| + |copy2|)
    requires |all| == |copy1| + |copy2| && all[|copy1|..] == copy2
    requires forall k :: 0 <= k < |copy1| ==> Demoted(all[k], copy1[k], NatName(|copy1|))
    requires |copy2| == 0 ==> forall k :: 0 <= k < |copy1| ==> !copy1[k].isFinal
    ensures Valid(FiniteAutomaton(all))
    ensures ConcatShapeOf(copy1, copy2, FiniteAutomaton(all))
  {
    var n1 := |copy1|;
    forall k | 0 <= k < n1 ensures all[k].name == copy1[k].name {
      assert Demoted(all[k], copy1[k], NatName(n1));
    }
    ConcatNames(copy1, copy2, all);
    var extra: set<string> := if |copy2| > 0 then {NatName(n1)} else {};
    ConcatTargets(copy1, all[..n1], NatName(n1), extra);
    ConcatValid(all, n1, |copy2|, Targets(copy1), extra);
  }

  /** The concatenation's states are named `0 … n1 + n2 - 1`. */
  lemma {:induction false} ConcatNames(copy1: seq<State>, copy2: seq<State>, all: seq<State>)
    requires |all| == |copy1| + |copy2| && all[|copy1|..] == copy2
    requires forall k {:trigger copy1[k]} :: 0 <= k < |copy1| ==> copy1[k].name == NatName(k)
    requires forall k :: 0 <= k < |copy2| ==> copy2[k].name == NatName(|copy1| + k)
    requires forall k :: 0 <= k < |copy1| ==> all[k].name == copy1[k].name
    ensures DistinctNames(all) && Names(all) == NatNames(0, |all|)
  {
    var n1 := |copy1|;
    forall k | 0 <= k < |all| ensures all[k].name == NatName(k) {
      if k >= n1 {
        assert all[k] == copy2[k - n1];
      }
    }
    NumberedNames(all, 0);
  }

  /** The demoted states point where they did, or at the second copy's initial state. */
  lemma {:induction false} ConcatTargets(copy1: seq<State>, demoted: seq<State>, target: string, extra: set<string>)
    requires |demoted| == |copy1|
    requires forall k :: 0 <= k < |copy1| ==> Demoted(demoted[k], copy1[k], target)
    requires (exists k :: 0 <= k < |copy1| && copy1[k].isFinal) ==> target in extra
    ensures Targets(demoted) <= Targets(copy1) + extra
  {
    forall k, t | 0 <= k < |demoted| && t in demoted[k].transitions
      ensures t in copy1[k].transitions || t.target in extra
    {
      assert Demoted(demoted[k], copy1[k], target);
    }
    TargetsWithin(demoted, copy1, extra);
  }

  /** The concatenation's states are valid. */
  lemma {:induction false} ConcatValid(all: seq<State>, n1: nat, n2: nat, copyTargets: set<string>, extra: set<string>)
    requires |all| == n1 + n2
    requires DistinctNames(all) && Names(all) == NatNames(0, n1 + n2)
    requires copyTargets <= NatNames(0, n1)
    requires extra <= NatNames(n1, n1 + n2)
    requires Targets(all[..n1]) <= copyTargets + extra
    requires Targets(all[n1..]) <= NatNames(n1, n1 + n2)
    ensures Valid(FiniteAutomaton(all))
  {
    assert all == all[..n1] + all[n1..];
    TargetsAppend(all[..n1], all[n1..]);
    NatNamesSplit(0, n1, n1 + n2);
  }

  /** `_create_automaton_union`. */
  method Union(a1: FiniteAutomaton, a2: FiniteAutomaton) returns (r: Result<FiniteAutomaton>)
    requires Valid(a1) && Valid(a2)
    ensures r.Ok? <==> |a2.states| > 0
    ensures r.Err? ==> r.error == UndefinedTarget
    ensures r.Ok? ==> Valid(r.value) && UnionShape(a1, a2, r.value)
  {
    var initial := State("0", false, []);
    var states1, index := RenameStates(a1.states, 1);
    var index2 := index;
    var states2, _ := RenameStates(a2.states, index);
    initial := AddTransitions(initial, [Transition(None, "1"), Transition(None, NatName(index2))]);
    var all := [initial] + states1 + states2;
    UnionInitial(initial, |states1|);
    UnionBuilt(a1, a2, initial, all);
    r := NewAutomaton(all);
  }

  /** The union assembled from the new initial state and the two renamed copies. */
  lemma {:induction false} UnionBuilt(a1: FiniteAutomaton, a2: FiniteAutomaton, initial: State, all: seq<State>)
    requires Valid(a1) && Valid(a2)
    requires initial.name == "0" && !initial.isFinal
    requires forall t :: t in initial.transitions <==> t == Transition(None, "1") || t == Transition(None, NatName(1 + |a1.states|))
    requires Targets([initial]) <= {NatName(1), NatName(1 + |a1.states|)} && NatName(1 + |a1.states|) in Targets([initial])
    requires all == [initial] + Renamed(a1.states, 1) + Renamed(a2.states, 1 + |a1.states|)
    ensures DistinctNames(all)
    ensures Valid(FiniteAutomaton(all)) <==> |a2.states| > 0
    ensures UnionShape(a1, a2, FiniteAutomaton(all))
  {
    UnionFacts(initial, Renamed(a1.states, 1), Renamed(a2.states, 1 + |a1.states|), all);
  }

  /** Where the states of the union come from. */
  lemma {:induction false} UnionLayout(initial: State, copy1: seq<State>, copy2: seq<State>, all: seq<State>)
    requires all == [initial] + copy1 + copy2
    ensures |all| == 1 + |copy1| + |copy2| && all[0] == initial
    ensures all[1..1 + |copy1|] == copy1 && all[1 + |copy1|..] == copy2
    ensures forall k :: 0 <= k < |copy1| ==> all[1 + k] == copy1[k]
    ensures forall k :: 0 <= k < |copy2| ==> all[1 + |copy1| + k] == copy2[k]
    ensures Targets(all) == Targets([initial]) + Targets(copy1) + Targets(copy2)
  {
    assert all[1..1 + |copy1|] == copy1;
    assert all[1 + |copy1|..] == copy2;
    TargetsAppend([initial], copy1);
    TargetsAppend([initial] + copy1, copy2);
  }

  lemma {:induction false} UnionFacts(initial: State, copy1: seq<State>, copy2: seq<State>, all: seq<State>)
    requires forall k :: 0 <= k < |copy1| ==> copy1[k].name == NatName(1 + k)
    requires Targets(copy1) <= NatNames(1, 1 + |copy1|)
    requires forall k :: 0 <= k < |copy2| ==> copy2[k].name == NatName(1 + |copy1| + k)
    requires Targets(copy2) <= NatNames(1 + |copy1|, 1 + |copy1| + |copy2|)
    requires initial.name == "0" && !initial.isFinal
    requires forall t :: t in initial.transitions <==> t == Transition(None, "1") || t == Transition(None, NatName(1 + |copy1|))
    requires Targets([initial]) <= {NatName(1), NatName(1 + |copy1|)} && NatName(1 + |copy1|) in Targets([initial])
    requires all == [initial] + copy1 + copy2
    ensures DistinctNames(all)
    ensures Valid(FiniteAutomaton(all)) <==> |copy2| > 0
    ensures UnionShapeOf(copy1, copy2, FiniteAutomaton(all))
  {
    UnionLayout(initial, copy1, copy2, all);
    UnionNames(copy1, copy2, all);
    if |copy2| > 0 {
      UnionValid(|copy1|, |copy2|, Names(all), Targets(all), Targets([initial]), Targets(copy1), Targets(copy2));
    } else {
      UnionMissing(|copy1|, Names(all), Targets(all));
    }
  }

  /** The new initial state of the union points at `1` and at `str(1 + n1)`. */
  lemma {:induction false} UnionInitial(initial: State, n1: nat)
    requires forall t :: t in initial.transitions <==> t in [] || t in [Transition(None, "1"), Transition(None, NatName(1 + n1))]
    ensures forall t :: t in initial.transitions <==> t == Transition(None, "1") || t == Transition(None, NatName(1 + n1))
    ensures Targets([initial]) <= {NatName(1), NatName(1 + n1)} && NatName(1 + n1) in Targets([initial])
  {
    assert NatName(1) == "1";
    TargetsOfTwo(initial, "1", NatName(1 + n1));
  }

  /** The union's states are named `0 … n1 + n2`. */
  lemma {:induction false} UnionNames(copy1: seq<State>, copy2: seq<State>, all: seq<State>)
    requires |all| == 1 + |copy1| + |copy2| && all[0].name == "0"
    requires forall k :: 0 <= k < |copy1| ==> all[1 + k] == copy1[k]
    requires forall k :: 0 <= k < |copy2| ==> all[1 + |copy1| + k] == copy2[k]
    requires forall k :: 0 <= k < |copy1| ==> copy1[k].name == NatName(1 + k)
    requires forall k :: 0 <= k < |copy2| ==> copy2[k].name == NatName(1 + |copy1| + k)
    ensures DistinctNames(all) && Names(all) == NatNames(0, |all|)
  {
    var n1 := |copy1|;
    assert NatName(0) == "0";
    forall k | 0 <= k < |all| ensures all[k].name == NatName(k) {
      if 1 <= k < 1 + n1 {
        assert all[1 + (k - 1)] == copy1[k - 1];
      } else if k >= 1 + n1 {
        assert all[1 + n1 + (k - 1 - n1)] == copy2[k - 1 - n1];
      }
    }
    NumberedNames(all, 0);
  }

  /** With a second automaton, every target of the union is one of its states. */
  lemma {:induction false} UnionValid(n1: nat, n2: nat, names: set<string>, targets: set<string>,
                   targets0: set<string>, targets1: set<string>, targets2: set<string>)
    requires n2 > 0
    requires names == NatNames(0, 1 + n1 + n2)
    requires targets == targets0 + targets1 + targets2
    requires targets0 <= {NatName(1), NatName(1 + n1)}
    requires targets1 <= NatNames(1, 1 + n1)
    requires targets2 <= NatNames(1 + n1, 1 + n1 + n2)
    ensures targets <= names
  {
    NatNamesSplit(0, 1, 1 + n1);
    NatNamesSplit(0, 1 + n1, 1 + n1 + n2);
    assert NatName(1) in names;
    assert NatName(1 + n1) in names;
  }

  /** With no second automaton, the new initial state points at a missing `str(1 + n1)`. */
  lemma {:induction false} UnionMissing(n1: nat, names: set<string>, targets: set<string>)
    requires names == NatNames(0, 1 + n1)
    requires NatName(1 + n1) in targets
    ensures !(targets <= names)
  {
    if NatName(1 + n1) in names {
      var k :| 0 <= k < 1 + n1 && NatName(k) == NatName(1 + n1);
      NatNameInjective(k, 1 + n1);
    }
  }

  /** The expression a reverse Polish string denotes: the empty language
      (an empty input), the empty word `λ`, a symbol, and the star, union
      (`+`) and concatenation (`.`) of expressions. */
  datatype Regex = Nothing | Epsilon | Sym(c: char) | Kleene(body: Regex) | Alt(left: Regex, right: Regex) | Cat(left: Regex, right: Regex)

  /** One character of the loop of `create_automaton`, on a stack of
      expressions: an operator with too few operands is the `IndexError`
      of `stack.pop()`; the first operand popped is the right one. */
  function ParseStep(stack: seq<Regex>, x: char): Result<seq<Regex>>
  {
    if x == '*' then
      if |stack| < 1 then Err(MalformedRegex)
      else Ok(stack[..|stack| - 1] + [Kleene(stack[|stack| - 1])])
    else if x == '+' || x == '.' then
      if |stack| < 2 then Err(MalformedRegex)
      else
        var left, right := stack[|stack| - 2], stack[|stack| - 1];
        Ok(stack[..|stack| - 2] + [if x == '+' then Alt(left, right) else Cat(left, right)])
    else if x == 'λ' then Ok(stack + [Epsilon])
    else if IsSpace(x) then Err(FormatParseError)
    else Ok(stack + [Sym(x)])
  }

  /** The stack of expressions after reading `rpn`. */
  function ParseRpn(rpn: string): Result<seq<Regex>>
    decreases |rpn|
  {
    if rpn == [] then Ok([])
    else
      match ParseRpn(rpn[..|rpn| - 1])
      case Err(e) => Err(e)
      case Ok(stack) => ParseStep(stack, rpn[|rpn| - 1])
  }

  /** The last expression on the stack; none is the `IndexError` of the
      final `stack.pop()`. */
  function TopOf(rpn: string): Result<Regex>
  {
    match ParseRpn(rpn)
    case Err(e) => Err(e)
    case Ok(stack) => if |stack| == 0 then Err(MalformedRegex) else Ok(stack[|stack| - 1])
  }

  /** The expression `create_automaton` builds an automaton for. */
  function RegexOf(re: string): Result<Regex>
  {
    if re == [] then Ok(Nothing)
    else
      match Rpn(re)
      case Err(e) => Err(e)
      case Ok(rpn) => TopOf(rpn)
  }

  /** `b` is the automaton the builders make for `t`, case by case. */
  ghost predicate Thompson(t: Regex, b: FiniteAutomaton)
    decreases t
  {
    match t
    case Nothing => b == EmptyAutomaton()
    case Epsilon => b == LambdaAutomaton()
    case Sym(c) => SymbolAutomaton(c) == Ok(b)
    case Kleene(body) => exists a :: Valid(a) && Thompson(body, a) && StarShape(a, b)
    case Alt(left, right) =>
      exists a1, a2 :: Valid(a1) && Valid(a2) && Thompson(left, a1) && Thompson(right, a2) && UnionShape(a1, a2, b)
    case Cat(left, right) =>
      exists a1, a2 :: Valid(a1) && Valid(a2) && Thompson(left, a1) && Thompson(right, a2) && ConcatShape(a1, a2, b)
  }

  /** What every automaton on the stack of `create_automaton` is. */
  ghost predicate Built(t: Regex, b: FiniteAutomaton)
  {
    Valid(b) && |b.states| > 0 && Thompson(t, b)
  }

  lemma {:induction false} ParseErrorStays(rpn: string, i: nat)
    requires i <= |rpn| && ParseRpn(rpn[..i]).Err?
    ensures ParseRpn(rpn) == Err(ParseRpn(rpn[..i]).error)
    decreases |rpn| - i
  {
    if i < |rpn| {
      assert rpn[..i + 1][..i] == rpn[..i];
      ParseErrorStays(rpn, i + 1);
    } else {
      assert rpn[..i] == rpn;
    }
  }

  /** `create_automaton`. */
  method CreateAutomaton(re: string) returns (r: Result<FiniteAutomaton>)
    ensures r.Ok? <==> RegexOf(re).Ok?
    ensures r.Err? ==> r.error == RegexOf(re).error
    ensures r.Ok? ==> Built(RegexOf(re).value, r.value)
  {
    if re == [] {
      return Ok(EmptyAutomaton());
    }
    var rpn := ReToRpn(re);
    if rpn.Err? {
      return Err(rpn.error);
    }
    var input := rpn.value;
    var stack: seq<FiniteAutomaton> := [];
    ghost var trees: seq<Regex> := [];
    for i := 0 to |input|
      invariant ParseRpn(input[..i]) == Ok(trees)
      invariant AllBuilt(trees, stack)
    {
      var x := input[i];
      ParseSnoc(input, i);
      if x == '*' {
        if |stack| < 1 {
          ParseErrorStays(input, i + 1);
          return Err(MalformedRegex);
        }
        AllBuiltPop(trees, stack);
        ghost var t := Kleene(trees[|trees| - 1]);
        var b := StarStep(trees[|trees| - 1], stack[|stack| - 1]);
        AllBuiltPush(trees[..|trees| - 1], stack[..|stack| - 1], t, b);
        stack := stack[..|stack| - 1] + [b];
        trees := trees[..|trees| - 1] + [t];
      } else if x == '+' || x == '.' {
        if |stack| < 2 {
          ParseErrorStays(input, i + 1);
          return Err(MalformedRegex);
        }
        AllBuiltPop2(trees, stack);
        ghost var t := if x == '+' then Alt(trees[|trees| - 2], trees[|trees| - 1]) else Cat(trees[|trees| - 2], trees[|trees| - 1]);
        var b := BinaryStep(x == '+', trees[|trees| - 2], trees[|trees| - 1], stack[|stack| - 2], stack[|stack| - 1]);
        AllBuiltPush(trees[..|trees| - 2], stack[..|stack| - 2], t, b);
        stack := stack[..|stack| - 2] + [b];
        trees := trees[..|trees| - 2] + [t];
      } else if x == 'λ' {
        AllBuiltPush(trees, stack, Epsilon, LambdaAutomaton());
        stack := stack + [LambdaAutomaton()];
        trees := trees + [Epsilon];
      } else {
        var sym := SymbolAutomaton(x);
        if sym.Err? {
          ParseErrorStays(input, i + 1);
          return Err(FormatParseError);
        }
        AllBuiltPush(trees, stack, Sym(x), sym.value);
        stack := stack + [sym.value];
        trees := trees + [Sym(x)];
      }
    }
    PrefixAll(input);
    if |stack| == 0 {
      return Err(MalformedRegex);
    }
    AllBuiltPop(trees, stack);
    r := Ok(stack[|stack| - 1]);
  }

  /** Every automaton on the stack is built for the expression at the same
      height of the expression stack. */
  ghost predicate AllBuilt(trees: seq<Regex>, stack: seq<FiniteAutomaton>)
    decreases |stack|
  {
    && |trees| == |stack|
    && (|stack| > 0 ==>
          AllBuilt(trees[..|trees| - 1], stack[..|stack| - 1]) && Built(trees[|trees| - 1], stack[|stack| - 1]))
  }

  lemma {:induction false} AllBuiltPop(trees: seq<Regex>, stack: seq<FiniteAutomaton>)
    requires AllBuilt(trees, stack) && |stack| > 0
    ensures |trees| == |stack|
    ensures AllBuilt(trees[..|trees| - 1], stack[..|stack| - 1]) && Built(trees[|trees| - 1], stack[|stack| - 1])
  {
  }

  lemma {:induction false} AllBuiltPop2(trees: seq<Regex>, stack: seq<FiniteAutomaton>)
    requires AllBuilt(trees, stack) && |stack| > 1
    ensures |trees| == |stack|
    ensures AllBuilt(trees[..|trees| - 2], stack[..|stack| - 2])
    ensures Built(trees[|trees| - 2], stack[|stack| - 2]) && Built(trees[|trees| - 1], stack[|stack| - 1])
  {
    var n := |stack|;
    AllBuiltPop(trees, stack);
    AllBuiltPop(trees[..n - 1], stack[..n - 1]);
    assert trees[..n - 1][..n - 2] == trees[..n - 2] && stack[..n - 1][..n - 2] == stack[..n - 2];
  }

  lemma {:induction false} AllBuiltPush(trees: seq<Regex>, stack: seq<FiniteAutomaton>, t: Regex, b: FiniteAutomaton)
    requires AllBuilt(trees, stack) && Built(t, b)
    ensures AllBuilt(trees + [t], stack + [b])
  {
    assert (trees + [t])[..|trees|] == trees && (stack + [b])[..|stack|] == stack;
  }

  lemma {:induction false} ParseSnoc(rpn: string, i: nat)
    requires i < |rpn|
    ensures ParseRpn(rpn[..i + 1]) ==
      if ParseRpn(rpn[..i]).Err? then ParseRpn(rpn[..i]) else ParseStep(ParseRpn(rpn[..i]).value, rpn[i])
  {
    assert rpn[..i + 1][..i] == rpn[..i];
  }

  /** The `*` branch of `create_automaton`: the star of the top automaton. */
  method StarStep(ghost t: Regex, a: FiniteAutomaton) returns (b: FiniteAutomaton)
    requires Built(t, a)
    ensures Built(Kleene(t), b)
  {
    var r := Star(a);
    KleeneBuilt(t, a, r.value);
    b := r.value;
  }

  /** The `+` and `.` branches of `create_automaton`: the union or the
      concatenation of the two top automata, the lower one first. */
  method BinaryStep(union: bool, ghost t1: Regex, ghost t2: Regex, a1: FiniteAutomaton, a2: FiniteAutomaton) returns (b: FiniteAutomaton)
    requires Built(t1, a1) && Built(t2, a2)
    ensures Built(if union then Alt(t1, t2) else Cat(t1, t2), b)
  {
    var r;
    if union {
      r := Union(a1, a2);
      AltBuilt(t1, t2, a1, a2, r.value);
    } else {
      r := Concat(a1, a2);
      CatBuilt(t1, t2, a1, a2, r.value);
    }
    b := r.value;
  }

  lemma {:induction false} KleeneBuilt(t: Regex, a: FiniteAutomaton, b: FiniteAutomaton)
    requires Built(t, a) && StarShape(a, b) && Valid(b)
    ensures Built(Kleene(t), b)
  {
  }

  lemma {:induction false} AltBuilt(t1: Regex, t2: Regex, a1: FiniteAutomaton, a2: FiniteAutomaton, b: FiniteAutomaton)
    requires Built(t1, a1) && Built(t2, a2) && UnionShape(a1, a2, b) && Valid(b)
    ensures Built(Alt(t1, t2), b)
  {
  }

  lemma {:induction false} CatBuilt(t1: Regex, t2: Regex, a1: FiniteAutomaton, a2: FiniteAutomaton, b: FiniteAutomaton)
    requires Built(t1, a1) && Built(t2, a2) && ConcatShape(a1, a2, b) && Valid(b)
    ensures Built(Cat(t1, t2), b)
  {
    assert |b.states| == |a1.states| + |a2.states|;
  }
}
