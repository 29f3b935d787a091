/** Ordered traversal of sets, as the program's ordered collections give it. */
module Ordering {

  ghost predicate TotalOrder<T(!new)>(le: (T, T) -> bool)
  {
    && (forall x :: le(x, x))
    && (forall x, y :: le(x, y) || le(y, x))
    && (forall x, y :: le(x, y) && le(y, x) ==> x == y)
    && (forall x, y, z :: le(x, y) && le(y, z) ==> le(x, z))
  }

  predicate IsLeast<T>(s: set<T>, le: (T, T) -> bool, m: T)
  {
    m in s && forall x :: x in s ==> le(m, x)
  }

  lemma {:induction false} LeastExists<T(!new)>(s: set<T>, le: (T, T) -> bool)
    requires s != {} && TotalOrder(le)
    ensures exists m :: IsLeast(s, le, m)
    decreases |s|
  {
    var x :| x in s;
    if s == {x} {
      assert IsLeast(s, le, x);
    } else {
      assert s - {x} != {} by {
        assert s == (s - {x}) + {x};
      }
      LeastExists(s - {x}, le);
      var rest :| IsLeast(s - {x}, le, rest);
      assert IsLeast(s, le, if le(x, rest) then x else rest);
    }
  }

  function Least<T(!new)>(s: set<T>, le: (T, T) -> bool): (m: T)
    requires s != {} && TotalOrder(le)
    ensures IsLeast(s, le, m)
  {
    LeastExists(s, le);
    var m :| m in s && IsLeast(s, le, m);
    m
  }

  predicate Ascending<T(==)>(q: seq<T>, le: (T, T) -> bool)
  {
    forall i, j :: 0 <= i < j < |q| ==> le(q[i], q[j]) && q[i] != q[j]
  }

  /** The elements of `s`, each once, in increasing order. */
  function Sorted<T(!new)>(s: set<T>, le: (T, T) -> bool): (q: seq<T>)
    requires TotalOrder(le)
    ensures forall x :: x in q <==> x in s
    ensures Ascending(q, le)
    ensures |q| == |s|
    decreases |s|
  {
    if s == {} then []
    else
      var m := Least(s, le);
      [m] + Sorted(s - {m}, le)
  }

  // ----- Numbers and strings -----

  predicate NatLe(a: nat, b: nat) { a <= b }

  lemma NatLeIsTotal()
    ensures TotalOrder(NatLe)
  {
  }

  /** Lexicographic order, as strings compare. */
  predicate StringLe(a: string, b: string)
  {
    a == [] || (b != [] && (a[0] < b[0] || (a[0] == b[0] && StringLe(a[1..], b[1..]))))
  }

  lemma {:induction false} StringLeReflexive(a: string)
    ensures StringLe(a, a)
  {
    if a != [] { StringLeReflexive(a[1..]); }
  }

  lemma {:induction false} StringLeConnects(a: string, b: string)
    ensures StringLe(a, b) || StringLe(b, a)
  {
    if a != [] && b != [] { StringLeConnects(a[1..], b[1..]); }
  }

  lemma {:induction false} StringLeAntisymmetric(a: string, b: string)
    requires StringLe(a, b) && StringLe(b, a)
    ensures a == b
  {
    if a != [] && b != [] {
      StringLeAntisymmetric(a[1..], b[1..]);
      assert a == [a[0]] + a[1..] && b == [b[0]] + b[1..];
    }
  }

  lemma {:induction false} StringLeTransitive(a: string, b: string, c: string)
    requires StringLe(a, b) && StringLe(b, c)
    ensures StringLe(a, c)
  {
    if a != [] && a[0] == b[0] == c[0] {
      StringLeTransitive(a[1..], b[1..], c[1..]);
    }
  }

  lemma StringLeIsTotal()
    ensures TotalOrder(StringLe)
  {
    forall a { StringLeReflexive(a); }
    forall a, b { StringLeConnects(a, b); }
    forall a, b | StringLe(a, b) && StringLe(b, a)
      ensures a == b
    {
      StringLeAntisymmetric(a, b);
    }
    forall a, b, c | StringLe(a, b) && StringLe(b, c)
      ensures StringLe(a, c)
    {
      StringLeTransitive(a, b, c);
    }
  }

  /** Pairs compare by their first component, then by their second. */
  predicate PairLe(p: (string, string), q: (string, string))
  {
    StringLe(p.0, q.0) && (p.0 == q.0 ==> StringLe(p.1, q.1))
  }

  lemma PairLeIsTotal()
    ensures TotalOrder(PairLe)
  {
    StringLeIsTotal();
  }

  /** The strings of a set in order; `SortedStringsAscend` says so. */
  function SortedStrings(s: set<string>): (q: seq<string>)
    ensures forall x :: x in q <==> x in s
    ensures |q| == |s|
  {
    StringLeIsTotal();
    Sorted(s, StringLe)
  }

  lemma SortedStringsAscend(s: set<string>)
    ensures Ascending(SortedStrings(s), StringLe)
  {
  }

  function SortedPairs(s: set<(string, string)>): (q: seq<(string, string)>)
    ensures forall x :: x in q <==> x in s
    ensures |q| == |s|
  {
    PairLeIsTotal();
    Sorted(s, PairLe)
  }

  lemma SortedPairsAscend(s: set<(string, string)>)
    ensures Ascending(SortedPairs(s), PairLe)
  {
  }

  /** One string begins the other, or the first character that differs is smaller. */
  lemma {:induction false} StringLeIff(a: string, b: string)
    ensures StringLe(a, b)
       <==> a <= b || exists i :: 0 <= i < |a| && i < |b| && a[..i] == b[..i] && a[i] < b[i]
  {
    if a != [] && b != [] && a[0] == b[0] {
      StringLeIff(a[1..], b[1..]);
      assert a == [a[0]] + a[1..] && b == [b[0]] + b[1..];
      if i :| 0 <= i < |a| - 1 && i < |b| - 1 && a[1..][..i] == b[1..][..i] && a[1..][i] < b[1..][i] {
        assert a[..i + 1] == [a[0]] + a[1..][..i] && b[..i + 1] == [b[0]] + b[1..][..i];
      }
      if i :| 0 <= i < |a| && i < |b| && a[..i] == b[..i] && a[i] < b[i] {
        assert a[1..][..i - 1] == a[..i][1..] && b[1..][..i - 1] == b[..i][1..];
      }
    } else if a != [] && b != [] {
      if a[0] < b[0] { assert a[..0] == b[..0]; }
      assert forall i :: 0 < i <= |a| && i <= |b| ==> a[..i][0] != b[..i][0];
    }
  }

  /** In an ascending list of pairs the first components never descend, and equal ones order the second. */
  lemma PairsAscendByFirst(q: seq<(string, string)>, i: nat, j: nat)
    requires Ascending(q, PairLe) && i < j < |q|
    ensures StringLe(q[i].0, q[j].0)
    ensures q[i].0 == q[j].0 ==> StringLe(q[i].1, q[j].1) && q[i].1 != q[j].1
  {
    assert PairLe(q[i], q[j]) && q[i] != q[j];
  }
}
