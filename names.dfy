/** Ordering, sorting and joining of state names.

    Python compares `str` values code point by code point, a proper prefix
    being smaller; `LexLe` is that order.  `SortedNames` is the sorted list
    `names.sort()` leaves behind, and `Join` is `"|".join(...)`.
 */
module StateNames {

  /** `a <= b` on Python strings. */
  predicate LexLe(a: string, b: string)
    decreases |a|
  {
    |a| == 0 || (|b| > 0 && (a[0] < b[0] || (a[0] == b[0] && LexLe(a[1..], b[1..]))))
  }

  lemma {:induction false} LexLeReflexive(a: string)
    ensures LexLe(a, a)
    decreases |a|
  {
    if |a| > 0 { LexLeReflexive(a[1..]); }
  }

  lemma {:induction false} LexLeTotal(a: string, b: string)
    ensures LexLe(a, b) || LexLe(b, a)
    decreases |a|
  {
    if |a| > 0 && |b| > 0 && a[0] == b[0] { LexLeTotal(a[1..], b[1..]); }
  }

  lemma {:induction false} LexLeAntisymmetric(a: string, b: string)
    requires LexLe(a, b) && LexLe(b, a)
    ensures a == b
    decreases |a|
  {
    if |a| > 0 {
      LexLeAntisymmetric(a[1..], b[1..]);
      assert a == [a[0]] + a[1..] && b == [b[0]] + b[1..];
    }
  }

  lemma {:induction false} LexLeTransitive(a: string, b: string, c: string)
    requires LexLe(a, b) && LexLe(b, c)
    ensures LexLe(a, c)
    decreases |a|
  {
    if |a| > 0 && a[0] == b[0] && b[0] == c[0] { LexLeTransitive(a[1..], b[1..], c[1..]); }
  }

  /** Every finite non-empty set of strings has a least element. */
  lemma {:induction false} LeastExists(s: set<string>)
    requires s != {}
    ensures exists m :: m in s && forall y :: y in s ==> LexLe(m, y)
    decreases s
  {
    var x :| x in s;
    if s == {x} {
      LexLeReflexive(x);
      assert forall y :: y in s ==> y == x;
    } else {
      LeastExists(s - {x});
      var m :| m in s - {x} && forall y :: y in s - {x} ==> LexLe(m, y);
      var least := LeastWith(s, x, m);
    }
  }

  /** The least element of `s`, given the least element `m` of `s - {x}`. */
  lemma {:induction false} LeastWith(s: set<string>, x: string, m: string) returns (least: string)
    requires x in s
    requires m in s - {x} && forall y :: y in s - {x} ==> LexLe(m, y)
    ensures least in s && forall y :: y in s ==> LexLe(least, y)
  {
    LexLeTotal(m, x);
    if LexLe(m, x) {
      least := m;
    } else {
      least := x;
      forall y | y in s ensures LexLe(x, y) {
        if y == x { LexLeReflexive(x); } else { LexLeTransitive(x, m, y); }
      }
    }
  }

  /** The first name after `names.sort()`: the least member of `s`. */
  function Smallest(s: set<string>): (m: string)
    requires s != {}
    ensures m in s
    ensures forall y :: y in s ==> LexLe(m, y)
  {
    LeastExists(s);
    LexLeAntisymmetricAll();
    var m :| m in s && forall y :: y in s ==> LexLe(m, y);
    m
  }

  lemma {:induction false} LexLeAntisymmetricAll()
    ensures forall a, b :: LexLe(a, b) && LexLe(b, a) ==> a == b
  {
    forall a, b | LexLe(a, b) && LexLe(b, a) ensures a == b { LexLeAntisymmetric(a, b); }
  }

  /** The names of `s` in ascending order, each once. */
  function SortedNames(s: set<string>): (r: seq<string>)
    ensures |r| == |s|
    ensures forall i :: 0 <= i < |r| ==> r[i] in s
    ensures forall x :: x in s ==> x in r
    ensures forall i, j :: 0 <= i < j < |r| ==> LexLe(r[i], r[j]) && r[i] != r[j]
    decreases s
  {
    if s == {} then []
    else
      var m := Smallest(s);
      var rest := SortedNames(s - {m});
      SortedCons(m, s, rest);
      [m] + rest
  }

  /** Putting the least element in front of the sorted rest keeps the list sorted. */
  lemma {:induction false} SortedCons(m: string, s: set<string>, rest: seq<string>)
    requires m in s && forall y :: y in s ==> LexLe(m, y)
    requires forall i :: 0 <= i < |rest| ==> rest[i] in s - {m}
    requires forall i, j :: 0 <= i < j < |rest| ==> LexLe(rest[i], rest[j]) && rest[i] != rest[j]
    ensures forall i, j :: 0 <= i < j < |[m] + rest| ==> LexLe(([m] + rest)[i], ([m] + rest)[j]) && ([m] + rest)[i] != ([m] + rest)[j]
  {
    forall i, j | 0 <= i < j < |[m] + rest|
      ensures LexLe(([m] + rest)[i], ([m] + rest)[j]) && ([m] + rest)[i] != ([m] + rest)[j]
    {
      if i == 0 {
        assert ([m] + rest)[j] == rest[j - 1];
      } else {
        assert ([m] + rest)[i] == rest[i - 1] && ([m] + rest)[j] == rest[j - 1];
      }
    }
  }

  /** `sep.join(xs)`. */
  function Join(xs: seq<string>, sep: char): string
    decreases |xs|
  {
    if |xs| == 0 then ""
    else if |xs| == 1 then xs[0]
    else xs[0] + [sep] + Join(xs[1..], sep)
  }

  /** `s.split(sep)`: the inverse of `Join` on pieces that do not hold `sep`. */
  function Split(s: string, sep: char): (r: seq<string>)
    ensures |r| > 0
    decreases |s|
  {
    if |s| == 0 then [""]
    else if s[0] == sep then [""] + Split(s[1..], sep)
    else
      var rest := Split(s[1..], sep);
      [[s[0]] + rest[0]] + rest[1..]
  }

  lemma {:induction false} SplitPiece(x: string, sep: char, tail: seq<string>, rest: string)
    requires sep !in x
    requires Split(rest, sep) == tail
    ensures Split(x + [sep] + rest, sep) == [x] + tail
    ensures Split(x, sep) == [x]
    decreases |x|
  {
    if |x| == 0 {
      assert x + [sep] + rest == [sep] + rest;
      assert ([sep] + rest)[1..] == rest;
    } else {
      SplitPiece(x[1..], sep, tail, rest);
      assert (x + [sep] + rest)[1..] == x[1..] + [sep] + rest;
      assert [x[0]] + x[1..] == x;
    }
  }

  /** Splitting a join gives the pieces back. */
  lemma {:induction false} SplitJoin(xs: seq<string>, sep: char)
    requires |xs| > 0
    requires forall i :: 0 <= i < |xs| ==> sep !in xs[i]
    ensures Split(Join(xs, sep), sep) == xs
    decreases |xs|
  {
    if |xs| == 1 {
      SplitPiece(xs[0], sep, [""], "");
    } else {
      SplitJoin(xs[1..], sep);
      SplitPiece(xs[0], sep, xs[1..], Join(xs[1..], sep));
      assert [xs[0]] + xs[1..] == xs;
    }
  }

  lemma {:induction false} HeadIsMember(xs: seq<string>)
    ensures |xs| > 0 ==> xs[0] in xs
  {
  }

  /** Two ascending duplicate-free lists with the same members are equal. */
  lemma {:induction false} SortedUnique(xs: seq<string>, ys: seq<string>)
    requires forall i, j :: 0 <= i < j < |xs| ==> LexLe(xs[i], xs[j]) && xs[i] != xs[j]
    requires forall i, j :: 0 <= i < j < |ys| ==> LexLe(ys[i], ys[j]) && ys[i] != ys[j]
    requires forall x :: x in xs <==> x in ys
    ensures xs == ys
    decreases |xs|
  {
    if |xs| > 0 && |ys| > 0 {
      assert xs[0] in ys;
      assert ys[0] in xs;
      var i :| 0 <= i < |ys| && ys[i] == xs[0];
      var j :| 0 <= j < |xs| && xs[j] == ys[0];
      if i > 0 && j > 0 {
        LexLeAntisymmetric(xs[0], ys[0]);
      }
      assert xs[0] == ys[0];
      forall x ensures x in xs[1..] <==> x in ys[1..] {
        if x in xs[1..] {
          var k :| 0 <= k < |xs| - 1 && xs[1..][k] == x;
          assert x != xs[0] && x in ys;
          var l :| 0 <= l < |ys| && ys[l] == x;
          assert l > 0 && ys[1..][l - 1] == x;
        }
        if x in ys[1..] {
          var k :| 0 <= k < |ys| - 1 && ys[1..][k] == x;
          assert x != ys[0] && x in xs;
          var l :| 0 <= l < |xs| && xs[l] == x;
          assert l > 0 && xs[1..][l - 1] == x;
        }
      }
      SortedUnique(xs[1..], ys[1..]);
      assert xs == [xs[0]] + xs[1..] && ys == [ys[0]] + ys[1..];
    } else {
      HeadIsMember(xs);
      HeadIsMember(ys);
    }
  }
}
