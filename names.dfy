/** Python's ordering of `str` values (code point by code point, a proper
    prefix first) and `sorted` applied to a set of names. */
module Names {

  /** `a < b` on Python strings. */
  predicate Below(a: string, b: string) {
    if a == [] then b != []
    else if b == [] then false
    else if a[0] != b[0] then a[0] < b[0]
    else Below(a[1..], b[1..])
  }

  lemma {:induction false} BelowIrreflexive(a: string)
    ensures !Below(a, a)
  {
    if a != [] {
      BelowIrreflexive(a[1..]);
    }
  }

  lemma {:induction false} BelowTransitive(a: string, b: string, c: string)
    requires Below(a, b) && Below(b, c)
    ensures Below(a, c)
  {
    if a != [] && b != [] && c != [] && a[0] == b[0] == c[0] {
      BelowTransitive(a[1..], b[1..], c[1..]);
    }
  }

  /** Any two distinct strings are ordered one way or the other. */
  lemma {:induction false} BelowTotal(a: string, b: string)
    requires a != b
    ensures Below(a, b) || Below(b, a)
  {
    if a != [] && b != [] && a[0] == b[0] {
      assert a == [a[0]] + a[1..] && b == [b[0]] + b[1..];
      BelowTotal(a[1..], b[1..]);
    }
  }

  lemma {:induction false} BelowAsymmetric(a: string, b: string)
    requires Below(a, b)
    ensures !Below(b, a)
  {
    if !(a != [] && b != [] && a[0] == b[0]) {
    } else {
      BelowAsymmetric(a[1..], b[1..]);
    }
  }

  /** `m` is the smallest name of `s`. */
  predicate IsLeast(m: string, s: set<string>) {
    m in s && forall y :: y in s ==> !Below(y, m)
  }

  /** Every non-empty finite set of names has a smallest one. */
  lemma {:induction false} LeastExists(s: set<string>)
    requires s != {}
    ensures exists m :: IsLeast(m, s)
  {
    var x :| x in s;
    if s == {x} {
      BelowIrreflexive(x);
      assert IsLeast(x, s);
    } else {
      LeastExists(s - {x});
      var m :| IsLeast(m, s - {x});
      if Below(x, m) {
        forall y | y in s ensures !Below(y, x) {
          if y == x {
            BelowIrreflexive(x);
          } else if Below(y, x) {
            BelowTransitive(y, x, m);
          }
        }
        assert IsLeast(x, s);
      } else {
        assert IsLeast(m, s);
      }
    }
  }

  /** A set has at most one smallest name. */
  lemma LeastUnique(m: string, n: string, s: set<string>)
    requires IsLeast(m, s) && IsLeast(n, s)
    ensures m == n
  {
    if m != n {
      BelowTotal(m, n);
    }
  }

  /** The smallest name of a non-empty set. */
  function Least(s: set<string>): (m: string)
    requires s != {}
    ensures m in s
    ensures forall y :: y in s ==> !Below(y, m)
  {
    LeastExists(s);
    assert forall m, n :: IsLeast(m, s) && IsLeast(n, s) ==> m == n by {
      forall m, n | IsLeast(m, s) && IsLeast(n, s) ensures m == n {
        LeastUnique(m, n, s);
      }
    }
    var m :| IsLeast(m, s);
    m
  }

  /** Each name comes strictly after the one before it. */
  predicate Increasing(q: seq<string>) {
    forall i, j :: 0 <= i < j < |q| ==> Below(q[i], q[j])
  }

  /** `sorted(s)`: the names of `s`, each once, in increasing order. */
  function SortedNames(s: set<string>): (q: seq<string>)
    ensures Increasing(q)
    ensures |q| == |s|
    ensures forall x :: x in q <==> x in s
    decreases s
  {
    if s == {} then []
    else
      var m := Least(s);
      var rest := SortedNames(s - {m});
      assert forall j :: 0 < j < |[m] + rest| ==> Below(m, ([m] + rest)[j]) by {
        forall j | 0 < j < |[m] + rest| ensures Below(m, ([m] + rest)[j]) {
          var y := rest[j - 1];
          assert y in s && y != m;
          BelowTotal(m, y);
        }
      }
      [m] + rest
  }

  /** The first name of an increasing arrangement of `s` is its least. */
  lemma IncreasingStartsWithLeast(s: set<string>, q: seq<string>)
    requires Increasing(q) && q != []
    requires forall x :: x in q <==> x in s
    ensures s != {} && q[0] == Least(s)
  {
    assert q[0] in s;
    var m := Least(s);
    var k :| 0 <= k < |q| && q[k] == m;
    if k > 0 {
      assert Below(q[0], q[k]);
    }
  }

  /** The rest of an increasing arrangement of `s` arranges `s` without its first name. */
  lemma IncreasingTail(s: set<string>, q: seq<string>)
    requires Increasing(q) && q != []
    requires forall x :: x in q <==> x in s
    ensures Increasing(q[1..])
    ensures forall x :: x in q[1..] <==> x in s - {q[0]}
  {
    forall x ensures x in q[1..] <==> x in s - {q[0]} {
      if x in q[1..] {
        var k :| 1 <= k < |q| && q[k] == x;
        assert Below(q[0], q[k]);
        BelowIrreflexive(x);
      }
      if x in s - {q[0]} {
        var k :| 0 <= k < |q| && q[k] == x;
        assert q[1..][k - 1] == x;
      }
    }
  }

  /** An increasing sequence is determined by the set of its elements, so
      any increasing arrangement of `s` is `SortedNames(s)`. */
  lemma {:induction false} SortedNamesUnique(s: set<string>, q: seq<string>)
    requires Increasing(q)
    requires forall x :: x in q <==> x in s
    ensures q == SortedNames(s)
    decreases |q|
  {
    if q == [] {
      assert s == {};
    } else {
      var rest := s - {q[0]};
      assert s != {} && q[0] == Least(s) by {
        IncreasingStartsWithLeast(s, q);
      }
      assert Increasing(q[1..]) && forall x :: x in q[1..] <==> x in rest by {
        IncreasingTail(s, q);
      }
      SortedNamesUnique(rest, q[1..]);
      SortedNamesStep(s);
      assert q == [q[0]] + q[1..];
    }
  }

  /** One step of the sort: the least name, then the sort of the rest. */
  lemma SortedNamesStep(s: set<string>)
    requires s != {}
    ensures SortedNames(s) == [Least(s)] + SortedNames(s - {Least(s)})
  {
  }
}
