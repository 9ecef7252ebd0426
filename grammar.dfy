/** The LL(1) toolkit of `p2/src/grammar.py`: the checked `Grammar`
    constructor, the FIRST sets it precomputes, `compute_first`, the
    `LL1Table` with `add_cell` and the table-driven `analyze`, and
    `ParseTree` equality.

    Symbols are strings.  A right-hand side is one string read character by
    character (`for s in r`), so each of its symbols is a one-character
    string; FIRST sets hold terminals and `""`, which stands for lambda.
 */
module Grammars {

  datatype Option<T> = None | Some(value: T)

  /** Why `analyze` raised its `SyntaxError`. */
  datatype ParseFailure =
    | ForeignSymbol           // the input holds a symbol that is not a terminal
    | NoRule                  // the cell of the top non-terminal and the next symbol is empty
    | Mismatch                // the top terminal differs from the next symbol
    | Unfinished              // the input or the stack ran out before the other

  /** The exceptions of the grammar module. */
  datatype GrammarError =
    | SymbolsOverlap          // ValueError: terminals and non-terminals intersect
    | AxiomNotNonTerminal     // ValueError: the axiom is not a non-terminal
    | KeysMismatch            // ValueError: production keys differ from the non-terminals
    | NoRules                 // ValueError: a non-terminal without production rules
    | InvalidSymbol           // ValueError: a symbol outside the grammar
    | UnknownRow              // ValueError of `add_cell`: the row is not a non-terminal
    | UnknownColumn           // ValueError of `add_cell`: the column is not a terminal
    | InvalidCellBody         // ValueError of `add_cell`: the body holds an unknown symbol
    | RepeatedCell            // RepeatedCellError
    | SyntaxError(reason: ParseFailure)

  datatype Result<T> = Ok(value: T) | Err(error: GrammarError)

  /** The outcome of an operation that returns nothing or raises. */
  datatype Outcome = Success | Failure(error: GrammarError)

  /** The `k`-th symbol of a string: its `k`-th character as a string. */
  function Sym(s: string, k: int): string
    requires 0 <= k < |s|
  {
    [s[k]]
  }

  /** Every symbol of `s` is one of `symbols`. */
  predicate Over(s: string, symbols: set<string>)
  {
    forall k :: 0 <= k < |s| ==> Sym(s, k) in symbols
  }

  lemma {:induction false} OverSuffix(s: string, i: int, symbols: set<string>)
    requires Over(s, symbols) && 0 <= i <= |s|
    ensures Over(s[i..], symbols)
  {
    forall k | 0 <= k < |s[i..]| ensures Sym(s[i..], k) in symbols {
      assert Sym(s[i..], k) == Sym(s, i + k);
    }
  }

  // ---------------------------------------------------------------------
  // The grammar and its constructor

  /** A `Grammar` object; `first` is the dictionary `precompute_first`
      leaves in `self.first`. */
  datatype Grammar = Grammar(terminals: set<string>, nonTerminals: set<string>,
                             productions: map<string, seq<string>>, axiom: string,
                             first: map<string, set<string>>)

  /** Every rule of `rules` is written over `symbols`. */
  predicate RulesOver(rules: seq<string>, symbols: set<string>)
  {
    forall i :: 0 <= i < |rules| ==> Over(rules[i], symbols)
  }

  /** What the constructor checks of one entry of the `productions` dict. */
  predicate EntryOk(rules: seq<string>, symbols: set<string>)
  {
    rules != [] && RulesOver(rules, symbols)
  }

  /** A dictionary has each key once. */
  predicate DistinctKeys(items: seq<(string, seq<string>)>)
  {
    forall i, j :: 0 <= i < j < |items| ==> items[i].0 != items[j].0
  }

  function Keys(items: seq<(string, seq<string>)>): set<string>
  {
    set i | 0 <= i < |items| :: items[i].0
  }

  /** The dictionary whose entries, in insertion order, are `items`. */
  function AsMap(items: seq<(string, seq<string>)>): (m: map<string, seq<string>>)
    requires DistinctKeys(items)
    ensures m.Keys == Keys(items)
    ensures forall i :: 0 <= i < |items| ==> m[items[i].0] == items[i].1
  {
    map i | 0 <= i < |items| :: items[i].0 := items[i].1
  }

  /** The loop of the constructor over `productions.items()`: for each
      entry in order, first the check for an empty rule list, then the check
      of every symbol of every rule. */
  function CheckEntries(items: seq<(string, seq<string>)>, symbols: set<string>): (r: Option<GrammarError>)
    ensures r.None? <==> forall i :: 0 <= i < |items| ==> EntryOk(items[i].1, symbols)
    ensures r == Some(NoRules) ==>
              exists i :: 0 <= i < |items| && items[i].1 == [] && forall j :: 0 <= j < i ==> EntryOk(items[j].1, symbols)
    ensures r == Some(InvalidSymbol) ==>
              exists i :: 0 <= i < |items| && items[i].1 != [] && !RulesOver(items[i].1, symbols)
                          && forall j :: 0 <= j < i ==> EntryOk(items[j].1, symbols)
    ensures r.None? || r == Some(NoRules) || r == Some(InvalidSymbol)
    decreases |items|
  {
    if items == [] then None
    else if items[0].1 == [] then Some(NoRules)
    else if !RulesOver(items[0].1, symbols) then Some(InvalidSymbol)
    else
      var r := CheckEntries(items[1..], symbols);
      assert forall i :: 0 < i < |items| ==> items[i] == items[1..][i - 1];
      r
  }

  /** What a constructed grammar satisfies. */
  predicate WellFormed(g: Grammar)
  {
    && g.terminals * g.nonTerminals == {}
    && g.axiom in g.nonTerminals
    && g.productions.Keys == g.nonTerminals
    && forall nt :: nt in g.productions ==> EntryOk(g.productions[nt], g.terminals + g.nonTerminals)
  }

  /** The checks of `Grammar.__init__`, in the order it makes them. */
  function CheckGrammar(terminals: set<string>, nonTerminals: set<string>,
                        items: seq<(string, seq<string>)>, axiom: string): (r: Option<GrammarError>)
    requires DistinctKeys(items)
    ensures r.None? <==> WellFormed(Grammar(terminals, nonTerminals, AsMap(items), axiom, map[]))
    ensures r == Some(SymbolsOverlap) <==> terminals * nonTerminals != {}
    ensures r == Some(AxiomNotNonTerminal) <==> terminals * nonTerminals == {} && axiom !in nonTerminals
    ensures r == Some(KeysMismatch) <==>
              terminals * nonTerminals == {} && axiom in nonTerminals && nonTerminals != Keys(items)
    ensures r.Some? && r.value !in {SymbolsOverlap, AxiomNotNonTerminal, KeysMismatch} ==>
              r == CheckEntries(items, terminals + nonTerminals)
  {
    if terminals * nonTerminals != {} then Some(SymbolsOverlap)
    else if axiom !in nonTerminals then Some(AxiomNotNonTerminal)
    else if nonTerminals != Keys(items) then Some(KeysMismatch)
    else
      var r := CheckEntries(items, terminals + nonTerminals);
      assert r.None? <==> WellFormed(Grammar(terminals, nonTerminals, AsMap(items), axiom, map[])) by {
        var m := AsMap(items);
        if r.None? {
          forall nt | nt in m ensures EntryOk(m[nt], terminals + nonTerminals) {
            var i :| 0 <= i < |items| && items[i].0 == nt;
          }
        } else {
          var i :| 0 <= i < |items| && !EntryOk(items[i].1, terminals + nonTerminals);
          assert items[i].0 in m && m[items[i].0] == items[i].1;
        }
      }
      r
  }

  // ---------------------------------------------------------------------
  // FIRST sets

  /** `add_firsts`, and what `compute_first` computes: the FIRST set of the
      string `s`, given the FIRST set `first[X]` of every non-terminal `X`.
      A terminal ends the scan; so does a non-terminal without `""` in its
      set; `""` is in the result when the scan runs off the end. */
  function FirstOf(terminals: set<string>, first: map<string, set<string>>, s: string): set<string>
    requires Over(s, terminals + first.Keys)
    decreases |s|
  {
    if s == "" then {""}
    else if Sym(s, 0) in terminals then {Sym(s, 0)}
    else
      var x := first[Sym(s, 0)];
      OverSuffix(s, 1, terminals + first.Keys);
      (x - {""}) + (if "" !in x then {} else FirstOf(terminals, first, s[1..]))
  }

  /** `FirstOf` on a suffix, one symbol at a time. */
  lemma {:induction false} FirstOfAt(terminals: set<string>, first: map<string, set<string>>, s: string, i: int)
    requires Over(s, terminals + first.Keys) && 0 <= i < |s|
    ensures Over(s[i..], terminals + first.Keys) && Over(s[i + 1..], terminals + first.Keys)
    ensures Sym(s, i) in terminals ==> FirstOf(terminals, first, s[i..]) == {Sym(s, i)}
    ensures Sym(s, i) !in terminals ==>
              FirstOf(terminals, first, s[i..]) ==
                (first[Sym(s, i)] - {""}) + (if "" !in first[Sym(s, i)] then {} else FirstOf(terminals, first, s[i + 1..]))
  {
    OverSuffix(s, i, terminals + first.Keys);
    OverSuffix(s, i + 1, terminals + first.Keys);
    assert Sym(s[i..], 0) == Sym(s, i);
    assert s[i..][1..] == s[i + 1..];
  }

  /** Every symbol of `s` is a non-terminal whose FIRST set holds `""`. */
  predicate AllNullable(terminals: set<string>, first: map<string, set<string>>, s: string)
  {
    forall k :: 0 <= k < |s| ==> Sym(s, k) !in terminals && Sym(s, k) in first && "" in first[Sym(s, k)]
  }

  /** `""` is in the FIRST set of a string exactly when every symbol of it
      is a nullable non-terminal. */
  lemma {:induction false} FirstOfLambda(terminals: set<string>, first: map<string, set<string>>, s: string)
    requires Over(s, terminals + first.Keys)
    ensures "" in FirstOf(terminals, first, s) <==> AllNullable(terminals, first, s)
    decreases |s|
  {
    if s != "" {
      FirstOfAt(terminals, first, s, 0);
      assert s[0..] == s;
      FirstOfLambda(terminals, first, s[1..]);
      if AllNullable(terminals, first, s) {
        forall k | 0 <= k < |s[1..]| ensures Sym(s[1..], k) !in terminals && Sym(s[1..], k) in first && "" in first[Sym(s[1..], k)] {
          assert Sym(s[1..], k) == Sym(s, k + 1);
        }
      }
      if "" in FirstOf(terminals, first, s) {
        assert Sym(s, 0) !in terminals;
        forall k | 0 <= k < |s| ensures Sym(s, k) !in terminals && Sym(s, k) in first && "" in first[Sym(s, k)] {
          if k > 0 {
            assert Sym(s[1..], k - 1) == Sym(s, k);
          }
        }
      }
    }
  }

  /** A symbol other than `""` reaches the FIRST set of `s` from its `k`-th
      symbol: the symbols before it are nullable non-terminals, and the
      `k`-th is that terminal or a non-terminal whose FIRST set holds it. */
  predicate FirstFrom(terminals: set<string>, first: map<string, set<string>>, s: string, k: int, x: string)
    requires 0 <= k < |s|
  {
    && AllNullable(terminals, first, s[..k])
    && (if Sym(s, k) in terminals then x == Sym(s, k) else Sym(s, k) in first && x in first[Sym(s, k)])
  }

  /** The terminals in the FIRST set of a string are those reached from
      one of its symbols. */
  lemma {:induction false} FirstOfMember(terminals: set<string>, first: map<string, set<string>>, s: string, x: string)
    requires Over(s, terminals + first.Keys) && x != ""
    ensures x in FirstOf(terminals, first, s) <==> exists k :: 0 <= k < |s| && FirstFrom(terminals, first, s, k, x)
    decreases |s|
  {
    if s != "" {
      FirstOfAt(terminals, first, s, 0);
      assert s[0..] == s;
      assert s[..0] == "";
      FirstOfMember(terminals, first, s[1..], x);
      if x in FirstOf(terminals, first, s) {
        if !FirstFrom(terminals, first, s, 0, x) {
          var k :| 0 <= k < |s[1..]| && FirstFrom(terminals, first, s[1..], k, x);
          FromTail(terminals, first, s, k, x);
        }
      } else {
        forall k | 0 <= k < |s| ensures !FirstFrom(terminals, first, s, k, x) {
          if k > 0 && FirstFrom(terminals, first, s, k, x) {
            FromHead(terminals, first, s, k, x);
          }
        }
      }
    }
  }

  /** Reaching `x` from the `k`-th symbol of the tail is reaching it from the
      next symbol of the whole string, past a nullable first symbol. */
  lemma {:induction false} FromTail(terminals: set<string>, first: map<string, set<string>>, s: string, k: int, x: string)
    requires 0 <= k < |s| - 1 && FirstFrom(terminals, first, s[1..], k, x)
    requires Sym(s, 0) !in terminals && Sym(s, 0) in first && "" in first[Sym(s, 0)]
    ensures FirstFrom(terminals, first, s, k + 1, x)
  {
    assert Sym(s[1..], k) == Sym(s, k + 1);
    var head, tail := s[..k + 1], s[1..][..k];
    forall j | 0 <= j < k + 1 ensures Sym(head, j) !in terminals && Sym(head, j) in first && "" in first[Sym(head, j)] {
      if j > 0 {
        assert Sym(head, j) == Sym(tail, j - 1);
      } else {
        assert Sym(head, 0) == Sym(s, 0);
      }
    }
  }

  lemma {:induction false} FromHead(terminals: set<string>, first: map<string, set<string>>, s: string, k: int, x: string)
    requires 0 < k < |s| && FirstFrom(terminals, first, s, k, x)
    ensures Sym(s, 0) !in terminals && Sym(s, 0) in first && "" in first[Sym(s, 0)]
    ensures FirstFrom(terminals, first, s[1..], k - 1, x)
  {
    assert Sym(s[..k], 0) == Sym(s, 0);
    assert Sym(s[1..], k - 1) == Sym(s, k);
    var head, tail := s[..k], s[1..][..k - 1];
    forall j | 0 <= j < k - 1 ensures Sym(tail, j) !in terminals && Sym(tail, j) in first && "" in first[Sym(tail, j)] {
      assert Sym(tail, j) == Sym(head, j + 1);
    }
  }

  // ---------------------------------------------------------------------
  // precompute_first

  /** FIRST sets hold terminals and `""`. */
  predicate Bounded(g: Grammar, f: map<string, set<string>>)
  {
    forall nt :: nt in f ==> f[nt] <= g.terminals + {""}
  }

  /** Pointwise inclusion of FIRST dictionaries. */
  predicate Le(f: map<string, set<string>>, h: map<string, set<string>>)
  {
    forall nt :: nt in f ==> nt in h && f[nt] <= h[nt]
  }

  /** For each rule `X -> r` of the grammar, the FIRST set of `r` lies in
      `f[X]`: the textbook definition of FIRST sets is the least such `f`. */
  ghost predicate Closed(g: Grammar, f: map<string, set<string>>)
    requires WellFormed(g)
  {
    && f.Keys == g.nonTerminals
    && forall nt, i :: nt in g.nonTerminals && 0 <= i < |g.productions[nt]| ==>
         FirstOf(g.terminals, f, g.productions[nt][i]) <= f[nt]
  }

  /** `f` is the FIRST dictionary of `g`: closed, and below every closed one. */
  ghost predicate IsFirst(g: Grammar, f: map<string, set<string>>)
    requires WellFormed(g)
  {
    Closed(g, f) && forall h :: Closed(g, h) ==> Le(f, h)
  }

  /** The starting FIRST set of one non-terminal: the terminals its rules
      begin with, and `""` when it has an empty rule. */
  function InitialOf(terminals: set<string>, rules: seq<string>): set<string>
  {
    (set r | r in rules && r != "" && Sym(r, 0) in terminals :: Sym(r, 0)) + (if "" in rules then {""} else {})
  }

  /** The dictionary `first` starts as. */
  function InitialFirst(g: Grammar): (f: map<string, set<string>>)
    requires WellFormed(g)
    ensures f.Keys == g.nonTerminals
  {
    map nt | nt in g.nonTerminals :: InitialOf(g.terminals, g.productions[nt])
  }

  /** The list `ntprods`: the rules that begin with a non-terminal. */
  function NtProds(g: Grammar): (r: set<(string, string)>)
    requires WellFormed(g)
    ensures forall nt, rhs :: (nt, rhs) in r ==>
              nt in g.nonTerminals && rhs in g.productions[nt] && rhs != "" && Sym(rhs, 0) in g.nonTerminals
  {
    set nt, rhs | nt in g.nonTerminals && rhs in g.productions[nt] && rhs != "" && Sym(rhs, 0) in g.nonTerminals :: (nt, rhs)
  }

  /** A rule of `X` is written over the symbols of the grammar. */
  lemma {:induction false} RuleOver(g: Grammar, nt: string, rhs: string, f: map<string, set<string>>)
    requires WellFormed(g) && nt in g.nonTerminals && rhs in g.productions[nt] && f.Keys == g.nonTerminals
    ensures Over(rhs, g.terminals + f.Keys)
  {
    var i :| 0 <= i < |g.productions[nt]| && g.productions[nt][i] == rhs;
  }

  /** A larger FIRST dictionary gives larger FIRST sets of strings. */
  lemma {:induction false} FirstOfMonotone(terminals: set<string>, f: map<string, set<string>>, h: map<string, set<string>>, s: string)
    requires Le(f, h) && Over(s, terminals + f.Keys)
    ensures Over(s, terminals + h.Keys)
    ensures FirstOf(terminals, f, s) <= FirstOf(terminals, h, s)
    decreases |s|
  {
    assert Over(s, terminals + h.Keys) by {
      forall k | 0 <= k < |s| ensures Sym(s, k) in terminals + h.Keys {
        assert Sym(s, k) in terminals + f.Keys;
      }
    }
    if s != "" && Sym(s, 0) !in terminals {
      OverSuffix(s, 1, terminals + f.Keys);
      FirstOfMonotone(terminals, f, h, s[1..]);
    }
  }

  /** FIRST sets of strings hold terminals and `""` only. */
  lemma {:induction false} FirstOfBounded(g: Grammar, f: map<string, set<string>>, s: string)
    requires Bounded(g, f) && Over(s, g.terminals + f.Keys)
    ensures FirstOf(g.terminals, f, s) <= g.terminals + {""}
    decreases |s|
  {
    if s != "" && Sym(s, 0) !in g.terminals {
      OverSuffix(s, 1, g.terminals + f.Keys);
      FirstOfBounded(g, f, s[1..]);
    }
  }

  /** The starting sets lie below every closed dictionary. */
  lemma {:induction false} InitialBelowClosed(g: Grammar, h: map<string, set<string>>)
    requires WellFormed(g) && Closed(g, h)
    ensures Le(InitialFirst(g), h)
  {
    forall nt | nt in g.nonTerminals ensures InitialOf(g.terminals, g.productions[nt]) <= h[nt] {
      var rules := g.productions[nt];
      forall x | x in InitialOf(g.terminals, rules) ensures x in h[nt] {
        if x == "" && "" in rules {
          var i :| 0 <= i < |rules| && rules[i] == "";
          assert FirstOf(g.terminals, h, rules[i]) == {""};
        } else {
          var r :| r in rules && r != "" && Sym(r, 0) in g.terminals && x == Sym(r, 0);
          var i :| 0 <= i < |rules| && rules[i] == r;
          assert FirstOf(g.terminals, h, rules[i]) == {x};
        }
      }
    }
  }

  /** A dictionary above the starting sets that is closed under the rules
      of `ntprods` is closed. */
  lemma {:induction false} ClosedFromRules(g: Grammar, f: map<string, set<string>>)
    requires WellFormed(g) && f.Keys == g.nonTerminals && Le(InitialFirst(g), f)
    requires forall nt, rhs :: (nt, rhs) in NtProds(g) ==> FirstOf(g.terminals, f, rhs) <= f[nt]
    ensures Closed(g, f)
  {
    forall nt, i | nt in g.nonTerminals && 0 <= i < |g.productions[nt]|
      ensures FirstOf(g.terminals, f, g.productions[nt][i]) <= f[nt]
    {
      var r := g.productions[nt][i];
      assert r in g.productions[nt];
      assert InitialFirst(g)[nt] == InitialOf(g.terminals, g.productions[nt]);
      if r == "" {
        assert "" in InitialOf(g.terminals, g.productions[nt]);
      } else if Sym(r, 0) in g.terminals {
        assert Sym(r, 0) in InitialOf(g.terminals, g.productions[nt]);
      } else {
        assert Over(r, g.terminals + g.nonTerminals);
        assert (nt, r) in NtProds(g);
      }
    }
  }

  lemma {:induction false} InitialBounded(g: Grammar)
    requires WellFormed(g)
    ensures Bounded(g, InitialFirst(g))
  {
  }

  /** Adding `FirstOf(rhs)` to `f[nt]` for a rule `nt -> rhs` keeps `f` below
      every closed dictionary. */
  lemma {:induction false} StepBelowClosed(g: Grammar, f: map<string, set<string>>, nt: string, rhs: string, h: map<string, set<string>>)
    requires WellFormed(g) && f.Keys == g.nonTerminals && (nt, rhs) in NtProds(g)
    requires Closed(g, h) && Le(f, h)
    ensures Over(rhs, g.terminals + f.Keys)
    ensures Le(f[nt := f[nt] + FirstOf(g.terminals, f, rhs)], h)
  {
    RuleOver(g, nt, rhs, f);
    FirstOfMonotone(g.terminals, f, h, rhs);
    var i :| 0 <= i < |g.productions[nt]| && g.productions[nt][i] == rhs;
  }

  /** Dictionaries squeezed between two equal ones are equal. */
  lemma {:induction false} LeSqueeze(f: map<string, set<string>>, h: map<string, set<string>>, k: map<string, set<string>>)
    requires Le(f, h) && Le(h, k) && k == f && h.Keys == f.Keys
    ensures h == f
  {
    forall nt | nt in f ensures h[nt] == f[nt] {
      assert f[nt] <= h[nt] <= k[nt];
    }
  }

  /** One pass of the `for nt, rhs in ntprods` loop, in any order, each
      update seeing the updates before it. */
  method FirstRound(g: Grammar, first: map<string, set<string>>) returns (next: map<string, set<string>>)
    requires WellFormed(g) && first.Keys == g.nonTerminals && Bounded(g, first)
    ensures next.Keys == g.nonTerminals && Bounded(g, next) && Le(first, next)
    ensures forall h :: Closed(g, h) && Le(first, h) ==> Le(next, h)
    ensures next == first ==> forall nt, rhs :: (nt, rhs) in NtProds(g) ==> FirstOf(g.terminals, first, rhs) <= first[nt]
  {
    next := first;
    var todo := NtProds(g);
    ghost var done: set<(string, string)> := {};
    while todo != {}
      invariant todo + done == NtProds(g)
      invariant next.Keys == g.nonTerminals && Bounded(g, next) && Le(first, next)
      invariant forall h :: Closed(g, h) && Le(first, h) ==> Le(next, h)
      invariant next == first ==> forall nt, rhs :: (nt, rhs) in done ==> FirstOf(g.terminals, first, rhs) <= first[nt]
      decreases todo
    {
      var pr :| pr in todo;
      var (nt, rhs) := pr;
      RuleOver(g, nt, rhs, next);
      var added := FirstOf(g.terminals, next, rhs);
      FirstOfBounded(g, next, rhs);
      forall h | Closed(g, h) && Le(first, h) ensures Le(next[nt := next[nt] + added], h) {
        StepBelowClosed(g, next, nt, rhs, h);
      }
      ghost var before := next;
      next := next[nt := next[nt] + added];
      if next == first {
        LeSqueeze(first, before, next);
      }
      todo := todo - {pr};
      done := done + {pr};
    }
  }

  /** The pairs `(X, x)` of a non-terminal and a terminal or `""` that
      `f[X]` does not hold yet: the loop's measure. */
  ghost function Missing(g: Grammar, f: map<string, set<string>>): set<(string, string)>
  {
    set nt, x | nt in f && x in g.terminals + {""} && x !in f[nt] :: (nt, x)
  }

  lemma {:induction false} MissingShrinks(g: Grammar, f: map<string, set<string>>, h: map<string, set<string>>)
    requires Le(f, h) && f.Keys == h.Keys && Bounded(g, h) && f != h
    ensures Missing(g, h) < Missing(g, f)
  {
    var nt :| nt in f && f[nt] != h[nt];
    var x :| x in h[nt] && x !in f[nt];
    assert (nt, x) in Missing(g, f) - Missing(g, h);
  }

  /** `Grammar.precompute_first`: start from the terminals that begin the
      rules (and `""` for empty rules) and apply the rules that begin with a
      non-terminal until a whole pass changes nothing.  The result is the
      least closed dictionary, so left recursion does not stop it. */
  method PrecomputeFirst(g: Grammar) returns (first: map<string, set<string>>)
    requires WellFormed(g)
    ensures first.Keys == g.nonTerminals && Bounded(g, first)
    ensures IsFirst(g, first)
  {
    first := InitialFirst(g);
    InitialBounded(g);
    forall h | Closed(g, h) ensures Le(first, h) {
      InitialBelowClosed(g, h);
    }
    var prev: map<string, set<string>> := map[];
    ghost var started := false;
    while first != prev
      invariant first.Keys == g.nonTerminals && Bounded(g, first)
      invariant Le(InitialFirst(g), first)
      invariant forall h :: Closed(g, h) ==> Le(first, h)
      invariant started ==> prev.Keys == first.Keys && Le(prev, first)
      invariant started && first == prev ==>
                  forall nt, rhs :: (nt, rhs) in NtProds(g) ==> FirstOf(g.terminals, first, rhs) <= first[nt]
      invariant !started ==> prev == map[]
      decreases Missing(g, first), if first == prev then 0 else 1
    {
      prev := first;
      started := true;
      first := FirstRound(g, prev);
      if first != prev {
        MissingShrinks(g, prev, first);
      }
    }
    assert g.axiom in first;
    ClosedFromRules(g, first);
  }

  /** The FIRST set of the `i`-th rule of `nt`. */
  ghost function RuleFirst(g: Grammar, f: map<string, set<string>>, nt: string, i: int): set<string>
    requires WellFormed(g) && f.Keys == g.nonTerminals && nt in g.nonTerminals && 0 <= i < |g.productions[nt]|
  {
    RuleOver(g, nt, g.productions[nt][i], f);
    FirstOf(g.terminals, f, g.productions[nt][i])
  }

  /** The FIRST sets of the rules of each non-terminal, joined. */
  ghost function RulesFirst(g: Grammar, f: map<string, set<string>>): (h: map<string, set<string>>)
    requires WellFormed(g) && f.Keys == g.nonTerminals
    ensures h.Keys == g.nonTerminals
  {
    map nt | nt in g.nonTerminals ::
      set i, x | 0 <= i < |g.productions[nt]| && x in RuleFirst(g, f, nt, i) :: x
  }

  /** The FIRST set of a non-terminal is the union of the FIRST sets of its
      rules. */
  lemma {:induction false} FirstEquation(g: Grammar, f: map<string, set<string>>, nt: string)
    requires WellFormed(g) && IsFirst(g, f) && nt in g.nonTerminals
    ensures f[nt] == RulesFirst(g, f)[nt]
  {
    var h := RulesFirst(g, f);
    assert Le(h, f) by {
      forall n | n in h ensures h[n] <= f[n] {
        forall x | x in h[n] ensures x in f[n] {
          var i :| 0 <= i < |g.productions[n]| && x in RuleFirst(g, f, n, i);
        }
      }
    }
    assert Closed(g, h) by {
      forall n, i | n in g.nonTerminals && 0 <= i < |g.productions[n]|
        ensures FirstOf(g.terminals, h, g.productions[n][i]) <= h[n]
      {
        RuleOver(g, n, g.productions[n][i], h);
        FirstOfMonotone(g.terminals, h, f, g.productions[n][i]);
        forall x | x in FirstOf(g.terminals, f, g.productions[n][i]) ensures x in h[n] {
          assert x in RuleFirst(g, f, n, i);
        }
      }
    }
    assert f[nt] <= h[nt];
  }

  /** A constructed grammar: the checks passed and `first` was precomputed. */
  ghost predicate Valid(g: Grammar)
  {
    WellFormed(g) && IsFirst(g, g.first)
  }

  /** `Grammar.__init__`: the checks, then `precompute_first`. */
  method NewGrammar(terminals: set<string>, nonTerminals: set<string>,
                    items: seq<(string, seq<string>)>, axiom: string) returns (r: Result<Grammar>)
    requires DistinctKeys(items)
    ensures r.Err? <==> CheckGrammar(terminals, nonTerminals, items, axiom).Some?
    ensures r.Err? ==> r.error == CheckGrammar(terminals, nonTerminals, items, axiom).value
    ensures r.Ok? ==> && r.value.terminals == terminals && r.value.nonTerminals == nonTerminals
                      && r.value.productions == AsMap(items) && r.value.axiom == axiom
    ensures r.Ok? ==> Valid(r.value)
  {
    var check := CheckGrammar(terminals, nonTerminals, items, axiom);
    if check.Some? {
      return Err(check.value);
    }
    var g := Grammar(terminals, nonTerminals, AsMap(items), axiom, map[]);
    var first := PrecomputeFirst(g);
    return Ok(g.(first := first));
  }

  /** `Grammar.compute_first_non_terminal`: `self.first.get(symbol)`. */
  function ComputeFirstNonTerminal(g: Grammar, symbol: string): (r: Option<set<string>>)
    requires Valid(g)
    ensures r.Some? <==> symbol in g.nonTerminals
    ensures r.Some? ==> forall x :: x in r.value <==>
              exists i :: 0 <= i < |g.productions[symbol]| && x in FirstOf(g.terminals, g.first, g.productions[symbol][i])
  {
    if symbol in g.first then
      FirstEquation(g, g.first, symbol);
      Some(g.first[symbol])
    else None
  }

  /** `Grammar.compute_first`: a symbol outside the grammar raises; the
      empty string gives `{""}`; otherwise the scan of `FirstOf`, with
      `last_lambda` recording that it ran off the end. */
  method ComputeFirst(g: Grammar, sentence: string) returns (r: Result<set<string>>)
    requires Valid(g)
    ensures r.Err? <==> !Over(sentence, g.terminals + g.nonTerminals)
    ensures r.Err? ==> r.error == InvalidSymbol
    ensures sentence == "" ==> r == Ok({""})
    ensures r.Ok? ==> r.value == FirstOf(g.terminals, g.first, sentence)
  {
    if exists k | 0 <= k < |sentence| :: Sym(sentence, k) !in g.terminals && Sym(sentence, k) !in g.nonTerminals {
      return Err(InvalidSymbol);
    }
    if sentence == "" {
      return Ok({""});
    }
    var first: set<string> := {};
    var lastLambda := false;
    var i := 0;
    while i < |sentence|
      invariant 0 <= i <= |sentence|
      invariant lastLambda <==> i > 0
      invariant "" !in first
      invariant Over(sentence[i..], g.terminals + g.first.Keys)
      invariant FirstOf(g.terminals, g.first, sentence) == first + FirstOf(g.terminals, g.first, sentence[i..])
    {
      lastLambda := false;
      var item := Sym(sentence, i);
      FirstOfAt(g.terminals, g.first, sentence, i);
      if item in g.terminals {
        first := first + {item};
        break;
      }
      var aux := ComputeFirstNonTerminal(g, item).value;
      first := first + (aux - {""});
      if "" !in aux {
        break;
      }
      lastLambda := true;
      i := i + 1;
    }
    if lastLambda {
      first := first + {""};
    }
    return Ok(first);
  }

  // ---------------------------------------------------------------------
  // Parse trees

  /** `ParseTree`: a root symbol and its subtrees. */
  datatype ParseTree = ParseTree(root: string, children: seq<ParseTree>)

  /** `ParseTree.__eq__`: the same root, as many children, and the children
      equal pairwise; it coincides with structural equality. */
  function TreeEq(a: ParseTree, b: ParseTree): (r: bool)
    ensures r <==> a == b
    decreases a
  {
    && a.root == b.root
    && |a.children| == |b.children|
    && ChildrenEq(a, b, 0)
  }

  /** `all(x.__eq__(y) for x, y in zip(a.children, b.children))`, from the
      `i`-th pair on. */
  function ChildrenEq(a: ParseTree, b: ParseTree, i: nat): (r: bool)
    requires |a.children| == |b.children| && i <= |a.children|
    ensures r <==> a.children[i..] == b.children[i..]
    decreases a, |a.children| - i
  {
    if i == |a.children| then true
    else
      var rest := ChildrenEq(a, b, i + 1);
      assert a.children[i..] == [a.children[i]] + a.children[i + 1..];
      assert b.children[i..] == [b.children[i]] + b.children[i + 1..];
      TreeEq(a.children[i], b.children[i]) && rest
  }

  // ---------------------------------------------------------------------
  // The LL(1) table

  /** The symbols of a cell body, one per character. */
  function Chars(body: string): (r: seq<string>)
    ensures |r| == |body| && forall k :: 0 <= k < |body| ==> r[k] == Sym(body, k)
  {
    seq(|body|, k requires 0 <= k < |body| => Sym(body, k))
  }

  /** The cells of a table with rows `nonTerminals` and columns `terminals`,
      each body written over the table's symbols. */
  ghost predicate Shaped(terminals: set<string>, nonTerminals: set<string>, cells: map<string, map<string, Option<string>>>)
  {
    && terminals * nonTerminals == {}
    && cells.Keys == nonTerminals
    && (forall nt :: nt in cells ==> cells[nt].Keys == terminals)
    && (forall nt, t :: nt in cells && t in cells[nt] && cells[nt][t].Some? ==>
          Over(cells[nt][t].value, terminals + nonTerminals))
  }

  /** What `analyze` returns: the tree, its `SyntaxError`, or `OutOfFuel`
      when the bound on its loop was reached first. */
  datatype Analysis = Accepted(tree: ParseTree) | Rejected(error: GrammarError) | OutOfFuel

  /** The loop of `analyze` from the remaining input and stack, for at most
      `fuel` iterations. */
  function Run(terminals: set<string>, nonTerminals: set<string>, cells: map<string, map<string, Option<string>>>,
               input: string, stack: seq<string>, fuel: nat): (r: Analysis)
    requires Shaped(terminals, nonTerminals, cells) && Over(input, terminals)
    ensures r.Accepted? ==> r.tree == ParseTree("", [])
    decreases fuel
  {
    if stack == [] || input == "" then
      if input == "" && stack == [] then Accepted(ParseTree("", [])) else Rejected(SyntaxError(Unfinished))
    else if fuel == 0 then OutOfFuel
    else
      var next, top := Sym(input, 0), stack[0];
      if top in nonTerminals then
        match cells[top][next]
        case None => Rejected(SyntaxError(NoRule))
        case Some(body) => Run(terminals, nonTerminals, cells, input, Chars(body) + stack[1..], fuel - 1)
      else if top != next then Rejected(SyntaxError(Mismatch))
      else
        OverSuffix(input, 1, terminals);
        Run(terminals, nonTerminals, cells, input[1..], stack[1..], fuel - 1)
  }

  /** More fuel does not change a result reached without running out. */
  lemma {:induction false} RunFuel(terminals: set<string>, nonTerminals: set<string>, cells: map<string, map<string, Option<string>>>,
                                   input: string, stack: seq<string>, fuel: nat, more: nat)
    requires Shaped(terminals, nonTerminals, cells) && Over(input, terminals)
    requires fuel <= more && !Run(terminals, nonTerminals, cells, input, stack, fuel).OutOfFuel?
    ensures Run(terminals, nonTerminals, cells, input, stack, more) == Run(terminals, nonTerminals, cells, input, stack, fuel)
    decreases fuel
  {
    if stack != [] && input != "" {
      var next, top := Sym(input, 0), stack[0];
      if top in nonTerminals {
        if cells[top][next].Some? {
          RunFuel(terminals, nonTerminals, cells, input, Chars(cells[top][next].value) + stack[1..], fuel - 1, more - 1);
        }
      } else if top == next {
        OverSuffix(input, 1, terminals);
        RunFuel(terminals, nonTerminals, cells, input[1..], stack[1..], fuel - 1, more - 1);
      }
    }
  }

  /** The stack `stack` derives `w` by leftmost steps of the grammar's rules,
      using at most `k` rule applications: terminals must match the input in
      order, and a non-terminal on top is replaced by one of its rules. */
  ghost predicate Derives(productions: map<string, seq<string>>, nonTerminals: set<string>,
                          stack: seq<string>, w: string, k: nat)
    decreases k, |w|
  {
    if stack == [] then w == ""
    else if stack[0] in nonTerminals then
      && k > 0 && stack[0] in productions
      && exists i :: 0 <= i < |productions[stack[0]]| &&
           Derives(productions, nonTerminals, Chars(productions[stack[0]][i]) + stack[1..], w, k - 1)
    else w != "" && Sym(w, 0) == stack[0] && Derives(productions, nonTerminals, stack[1..], w[1..], k)
  }

  /** Every filled cell of row `X` holds one of the rules of `X`. */
  predicate CellsFrom(productions: map<string, seq<string>>, cells: map<string, map<string, Option<string>>>)
  {
    forall nt, t :: nt in cells && t in cells[nt] && cells[nt][t].Some? ==>
      nt in productions && cells[nt][t].value in productions[nt]
  }

  /** What the table accepts, the grammar derives: when every filled cell
      holds a rule of its row, an accepted input is derived from the
      starting stack. */
  lemma {:induction false} RunSound(terminals: set<string>, nonTerminals: set<string>, cells: map<string, map<string, Option<string>>>,
                                    productions: map<string, seq<string>>, input: string, stack: seq<string>, fuel: nat)
    requires Shaped(terminals, nonTerminals, cells) && Over(input, terminals) && CellsFrom(productions, cells)
    requires Run(terminals, nonTerminals, cells, input, stack, fuel).Accepted?
    ensures exists k :: Derives(productions, nonTerminals, stack, input, k)
    decreases fuel
  {
    if stack == [] {
      assert Derives(productions, nonTerminals, stack, input, 0);
    } else {
      var next, top := Sym(input, 0), stack[0];
      if top in nonTerminals {
        var body := cells[top][next].value;
        var after := Chars(body) + stack[1..];
        RunSound(terminals, nonTerminals, cells, productions, input, after, fuel - 1);
        var k: nat :| Derives(productions, nonTerminals, after, input, k);
        assert top in productions && body in productions[top];
        var i :| 0 <= i < |productions[top]| && productions[top][i] == body;
        assert Derives(productions, nonTerminals, Chars(productions[top][i]) + stack[1..], input, k);
        assert Derives(productions, nonTerminals, stack, input, k + 1);
      } else {
        OverSuffix(input, 1, terminals);
        RunSound(terminals, nonTerminals, cells, productions, input[1..], stack[1..], fuel - 1);
        var k: nat :| Derives(productions, nonTerminals, stack[1..], input[1..], k);
        assert Derives(productions, nonTerminals, stack, input, k);
      }
    }
  }

  /** `LL1Table`: rows are non-terminals, columns terminals, and each cell
      is empty (`None`) or holds a rule body. */
  class LL1Table {
    var terminals: set<string>
    var nonTerminals: set<string>
    var cells: map<string, map<string, Option<string>>>

    ghost predicate Valid()
      reads this
    {
      Shaped(terminals, nonTerminals, cells)
    }

    /** `LL1Table.__init__` once its overlap check has passed: every cell empty. */
    constructor (nonTerminals: set<string>, terminals: set<string>)
      requires terminals * nonTerminals == {}
      ensures Valid()
      ensures this.terminals == terminals && this.nonTerminals == nonTerminals
      ensures forall nt, t :: nt in nonTerminals && t in terminals ==> cells[nt][t] == None
    {
      this.terminals := terminals;
      this.nonTerminals := nonTerminals;
      cells := map nt | nt in nonTerminals :: map t | t in terminals :: None;
    }

    /** `LL1Table.add_cell`: the row, the column and the body are checked in
        that order, a filled cell raises `RepeatedCellError`, and otherwise
        only that one cell changes. */
    method AddCell(nonTerminal: string, terminal: string, cellBody: string) returns (r: Outcome)
      requires Valid()
      modifies this
      ensures Valid() && terminals == old(terminals) && nonTerminals == old(nonTerminals)
      ensures nonTerminal !in nonTerminals ==> r == Failure(UnknownRow)
      ensures nonTerminal in nonTerminals && terminal !in terminals ==> r == Failure(UnknownColumn)
      ensures nonTerminal in nonTerminals && terminal in terminals && !Over(cellBody, terminals + nonTerminals) ==>
                r == Failure(InvalidCellBody)
      ensures (nonTerminal in nonTerminals && terminal in terminals && Over(cellBody, terminals + nonTerminals)
               && old(cells)[nonTerminal][terminal].Some?) ==> r == Failure(RepeatedCell)
      ensures r.Success? <==> (nonTerminal in nonTerminals && terminal in terminals
                               && Over(cellBody, terminals + nonTerminals) && old(cells)[nonTerminal][terminal].None?)
      ensures r.Failure? ==> cells == old(cells)
      ensures r.Success? ==> cells == old(cells)[nonTerminal := old(cells)[nonTerminal][terminal := Some(cellBody)]]
    {
      if nonTerminal !in nonTerminals {
        return Failure(UnknownRow);
      }
      if terminal !in terminals {
        return Failure(UnknownColumn);
      }
      if exists k | 0 <= k < |cellBody| :: Sym(cellBody, k) !in terminals + nonTerminals {
        return Failure(InvalidCellBody);
      }
      if cells[nonTerminal][terminal].Some? {
        return Failure(RepeatedCell);
      }
      cells := cells[nonTerminal := cells[nonTerminal][terminal := Some(cellBody)]];
      return Success;
    }

    /** `LL1Table.analyze`, its loop bounded by `fuel` iterations: a symbol
        that is not a terminal raises at once; then the stack starts as
        `[start, "$"]` and the loop runs while both the stack and the input
        are non-empty; it accepts when both end together. */
    method Analyze(input: string, start: string, fuel: nat) returns (r: Analysis)
      requires Valid()
      ensures !Over(input, terminals) ==> r == Rejected(SyntaxError(ForeignSymbol))
      ensures Over(input, terminals) ==> r == Run(terminals, nonTerminals, cells, input, [start, "$"], fuel)
    {
      if exists k | 0 <= k < |input| :: Sym(input, k) !in terminals {
        return Rejected(SyntaxError(ForeignSymbol));
      }
      var stack := [start, "$"];
      var rest := input;
      var steps := 0;
      while stack != [] && rest != "" && steps < fuel
        invariant 0 <= steps <= fuel && Over(rest, terminals)
        invariant Run(terminals, nonTerminals, cells, input, [start, "$"], fuel) ==
                  Run(terminals, nonTerminals, cells, rest, stack, fuel - steps)
        decreases fuel - steps
      {
        var next := Sym(rest, 0);
        var top := stack[0];
        stack := stack[1..];
        if top in nonTerminals {
          if cells[top][next].None? {
            return Rejected(SyntaxError(NoRule));
          }
          stack := Chars(cells[top][next].value) + stack;
        } else {
          if top != next {
            return Rejected(SyntaxError(Mismatch));
          }
          OverSuffix(rest, 1, terminals);
          rest := rest[1..];
        }
        steps := steps + 1;
      }
      if rest == "" && stack == [] {
        return Accepted(ParseTree("", []));
      }
      if stack != [] && rest != "" {
        return OutOfFuel;
      }
      return Rejected(SyntaxError(Unfinished));
    }
  }

  /** `LL1Table(non_terminals, terminals)`: raises when the two sets overlap. */
  method NewLL1Table(nonTerminals: set<string>, terminals: set<string>) returns (r: Result<LL1Table>)
    ensures r.Err? <==> terminals * nonTerminals != {}
    ensures r.Err? ==> r.error == SymbolsOverlap
    ensures r.Ok? ==> fresh(r.value) && r.value.Valid()
    ensures r.Ok? ==> r.value.terminals == terminals && r.value.nonTerminals == nonTerminals
    ensures r.Ok? ==> forall nt, t :: nt in nonTerminals && t in terminals ==> r.value.cells[nt][t] == None
  {
    if terminals * nonTerminals != {} {
      return Err(SymbolsOverlap);
    }
    var table := new LL1Table(nonTerminals, terminals);
    return Ok(table);
  }
}
