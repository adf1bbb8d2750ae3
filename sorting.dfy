/** Python's ordering of `str` values (lexicographic by code point, a proper
    prefix first) and `sorted()` applied to a set of strings. */
module Sorting {

  /** `a <= b` on Python strings. */
  predicate Le(a: string, b: string)
    decreases |a|
  {
    a == [] || (b != [] && (a[0] < b[0] || (a[0] == b[0] && Le(a[1..], b[1..]))))
  }

  /** `a < b` on Python strings. */
  predicate Lt(a: string, b: string) {
    Le(a, b) && a != b
  }

  lemma {:induction false} LeReflexive(a: string)
    ensures Le(a, a)
  {
    if a != [] { LeReflexive(a[1..]); }
  }

  lemma {:induction false} LeAntisymmetric(a: string, b: string)
    requires Le(a, b) && Le(b, a)
    ensures a == b
  {
    if a != [] {
      LeAntisymmetric(a[1..], b[1..]);
      assert a == [a[0]] + a[1..] && b == [b[0]] + b[1..];
    }
  }

  lemma {:induction false} LeTransitive(a: string, b: string, c: string)
    requires Le(a, b) && Le(b, c)
    ensures Le(a, c)
  {
    if a != [] && a[0] == b[0] && b[0] == c[0] {
      LeTransitive(a[1..], b[1..], c[1..]);
    }
  }

  lemma {:induction false} LeTotal(a: string, b: string)
    ensures Le(a, b) || Le(b, a)
  {
    if a != [] && b != [] && a[0] == b[0] {
      LeTotal(a[1..], b[1..]);
    }
  }

  /** No two distinct strings are each at most the other. */
  lemma LeAntisymmetricAll()
    ensures forall a, b :: Le(a, b) && Le(b, a) ==> a == b
  {
    forall a, b | Le(a, b) && Le(b, a) ensures a == b {
      LeAntisymmetric(a, b);
    }
  }

  predicate IsLeast(m: string, s: set<string>) {
    m in s && forall y :: y in s ==> Le(m, y)
  }

  /** Every non-empty finite set of strings has a least element. */
  lemma {:induction false} LeastExists(s: set<string>)
    requires s != {}
    ensures exists m :: IsLeast(m, s)
    decreases |s|
  {
    var x :| x in s;
    var rest := s - {x};
    if rest == {} {
      assert s == {x};
      LeReflexive(x);
      assert IsLeast(x, s);
    } else {
      LeastExists(rest);
      var m :| IsLeast(m, rest);
      LeTotal(x, m);
      if Le(x, m) {
        forall y | y in s ensures Le(x, y) {
          if y == x { LeReflexive(x); } else { LeTransitive(x, m, y); }
        }
        assert IsLeast(x, s);
      } else {
        assert IsLeast(m, s);
      }
    }
  }

  /** The least element of a non-empty set of strings. */
  function Least(s: set<string>): (m: string)
    requires s != {}
    ensures IsLeast(m, s)
  {
    LeastExists(s);
    LeAntisymmetricAll();
    var m :| IsLeast(m, s);
    m
  }

  /** Each element is strictly below every later one: sorted and free of duplicates. */
  predicate StrictlyAscending(r: seq<string>) {
    forall i, j :: 0 <= i < j < |r| ==> Lt(r[i], r[j])
  }

  /** `sorted(s)` for a set `s` of strings. */
  function SortSet(s: set<string>): (r: seq<string>)
    ensures StrictlyAscending(r)
    ensures forall x :: x in r <==> x in s
    ensures |r| == |s|
    decreases |s|
  {
    if s == {} then []
    else
      var m := Least(s);
      var rest := SortSet(s - {m});
      assert forall j :: 0 <= j < |rest| ==> Lt(m, rest[j]) by {
        forall j | 0 <= j < |rest| ensures Lt(m, rest[j]) {
          assert rest[j] in s - {m};
        }
      }
      [m] + rest
  }

  lemma HeadIsElement(s: seq<string>)
    ensures s != [] ==> s[0] in s
  {
  }

  /** A strictly ascending sequence is fixed by its elements, so `sorted` has
      exactly one possible answer. */
  lemma {:induction false} AscendingUnique(r: seq<string>, q: seq<string>)
    requires StrictlyAscending(r) && StrictlyAscending(q)
    requires forall x :: x in r <==> x in q
    ensures r == q
  {
    if r != [] && q != [] {
      assert r[0] == q[0] by {
        assert q[0] in r && r[0] in q;
        if r[0] != q[0] {
          var i :| 0 <= i < |r| && r[i] == q[0];
          var j :| 0 <= j < |q| && q[j] == r[0];
          assert Lt(r[0], r[i]) && Lt(q[0], q[j]);
          LeAntisymmetric(r[0], q[0]);
        }
      }
      assert r == [r[0]] + r[1..] && q == [q[0]] + q[1..];
      forall x ensures x in r[1..] <==> x in q[1..] {
        if x in r[1..] {
          var i :| 1 <= i < |r| && r[i] == x;
          assert Lt(r[0], x) && x in q && x != q[0];
        }
        if x in q[1..] {
          var j :| 1 <= j < |q| && q[j] == x;
          assert Lt(q[0], x) && x in r && x != r[0];
        }
      }
      AscendingUnique(r[1..], q[1..]);
    } else {
      HeadIsElement(r);
      HeadIsElement(q);
    }
  }
}
