/**
 Node names, the order in which Python sorts them, and the counting facts about finite sets of names
 that the quorum arithmetic rests on.

 A name stands for its lower-cased form, which is how `CaseInsensitiveSet` identifies it
 (module `CaseInsensitiveSets` proves that its operations are those of a set of lower-cased names).
 */
module Names {

  type Node = string

  function Min(a: int, b: int): int { if a < b then a else b }

  function Max(a: int, b: int): int { if a < b then b else a }

  // ---------- order on names ----------

  /** Lexicographic order on strings. */
  predicate Leq(a: Node, b: Node)
    decreases |a|
  {
    a == [] || (b != [] && (a[0] < b[0] || (a[0] == b[0] && Leq(a[1..], b[1..]))))
  }

  lemma LeqTotal(a: Node, b: Node)
    ensures Leq(a, b) || Leq(b, a)
  {}

  lemma LeqAntisymmetric(a: Node, b: Node)
    requires Leq(a, b) && Leq(b, a)
    ensures a == b
  {
    if a != [] && b != [] {
      LeqAntisymmetric(a[1..], b[1..]);
      assert a == [a[0]] + a[1..] && b == [b[0]] + b[1..];
    }
  }

  lemma LeqTransitive(a: Node, b: Node, c: Node)
    requires Leq(a, b) && Leq(b, c)
    ensures Leq(a, c)
  {
    if a != [] && b != [] && c != [] && a[0] == b[0] && b[0] == c[0] {
      LeqTransitive(a[1..], b[1..], c[1..]);
    }
  }

  /** The order in which `sorted` lists names, or the reverse of it. */
  predicate Precedes(ascending: bool, a: Node, b: Node) {
    if ascending then Leq(a, b) else Leq(b, a)
  }

  lemma FrontExists(ascending: bool, s: set<Node>) returns (front: Node)
    requires s != {}
    ensures front in s && forall y | y in s :: Precedes(ascending, front, y)
    decreases |s|
  {
    var x :| x in s;
    LeqTotal(x, x);
    front := x;
    var rest := s - {x};
    if rest != {} {
      var other := FrontExists(ascending, rest);
      LeqTotal(x, other);
      front := if Precedes(ascending, x, other) then x else other;
      forall y | y in s
        ensures Precedes(ascending, front, y)
      {
        if y != x {
          assert y in rest && Precedes(ascending, other, y);
          LeqTotal(other, other);
          if ascending { LeqTransitive(front, other, y); } else { LeqTransitive(y, other, front); }
        }
      }
    }
  }

  /** The first name of `s` in sorted (or reverse sorted) order. */
  function Front(ascending: bool, s: set<Node>): (x: Node)
    requires s != {}
    ensures x in s && forall y | y in s :: Precedes(ascending, x, y)
  {
    assert exists x :: x in s && forall y | y in s :: Precedes(ascending, x, y) by {
      var _ := FrontExists(ascending, s);
    }
    assert forall a, b | Leq(a, b) && Leq(b, a) :: a == b by {
      forall a, b | Leq(a, b) && Leq(b, a) ensures a == b { LeqAntisymmetric(a, b); }
    }
    var x :| x in s && forall y | y in s :: Precedes(ascending, x, y);
    x
  }

  /** How many elements Python's slice `[:k]` keeps of a list of length `n`. */
  function SliceLength(k: int, n: nat): (r: nat)
    ensures r <= n
  {
    if k >= 0 then Min(k, n) else Max(0, n + k)
  }

  /** The names in `sorted(s)[:k]`, or in `sorted(s, reverse=True)[:k]` when not ascending. */
  function Sorted(ascending: bool, s: set<Node>, k: int): (r: set<Node>)
    ensures r <= s && |r| == SliceLength(k, |s|)
    ensures forall x, y | x in r && y in s - r :: Precedes(ascending, x, y)
  {
    Take(ascending, s, SliceLength(k, |s|))
  }

  function Take(ascending: bool, s: set<Node>, k: nat): (r: set<Node>)
    requires k <= |s|
    ensures r <= s && |r| == k
    ensures forall x, y | x in r && y in s - r :: Precedes(ascending, x, y)
    decreases k
  {
    if k == 0 then {}
    else
      var x := Front(ascending, s);
      var rest := Take(ascending, s - {x}, k - 1);
      assert forall y | y in s - (rest + {x}) :: y in (s - {x}) - rest;
      rest + {x}
  }

  // ---------- counting ----------

  lemma SubsetSize(a: set<Node>, b: set<Node>)
    requires a <= b
    ensures |a| <= |b|
    ensures |b - a| == |b| - |a|
    ensures |a| == |b| ==> a == b
  {
    assert a * b == a;
    assert b == a + (b - a);
    assert |b - a| == 0 ==> b - a == {};
  }

  /** The members of `s` inside and outside of `a`. */
  lemma SplitBy(s: set<Node>, a: set<Node>)
    ensures |s * a| + |s - a| == |s|
    ensures s - a == {} <==> s <= a
    ensures s <= a ==> s * a == s
    ensures s * a == {} <==> s - a == s
    ensures s - (s - a) == s * a
  {
    assert s == (s * a) + (s - a);
    if s - a == {} {
      assert forall x | x in s && x !in a :: x in s - a;
    }
    if s * a == {} {
      assert forall x | x in s && x in a :: x in s * a;
    }
  }

  lemma DisjointUnionSize(a: set<Node>, b: set<Node>)
    requires a !! b
    ensures |a + b| == |a| + |b|
  {}

  lemma UnionSize(a: set<Node>, b: set<Node>)
    ensures |a + b| == |a| + |b - a| && |a + b| <= |a| + |b|
  {
    assert a + b == a + (b - a);
    DisjointUnionSize(a, b - a);
    SubsetSize(b - a, b);
  }

  /** Two subsets of `u` whose sizes add up to more than the size of `u` share a name. */
  lemma Pigeonhole(a: set<Node>, b: set<Node>, u: set<Node>) returns (x: Node)
    requires a <= u && b <= u
    requires |a| + |b| > |u|
    ensures x in a && x in b
  {
    SubsetSize(a + b, u);
    assert |a + b| + |a * b| == |a| + |b|;
    assert a * b != {};
    x :| x in a * b;
  }
}
