/**
 * Three-way comparisons and the lexicographic order they induce on sequences.
 * Python compares strings, and tuples of sort keys, this way.
 */
module Order {

  /** `cmp` returns -1, 0 or 1 and is a total order: antisymmetric, 0 only on equal values, transitive. */
  ghost predicate IsTotalOrder<T(!new)>(cmp: (T, T) -> int) {
    && (forall x, y :: cmp(x, y) == -cmp(y, x))
    && (forall x, y :: cmp(x, y) == 0 ==> x == y)
    && (forall x, y, z :: cmp(x, y) <= 0 && cmp(y, z) <= 0 ==> cmp(x, z) <= 0)
  }

  function Sign(c: int): (r: int)
    ensures r == -1 || r == 0 || r == 1
    ensures (r < 0 <==> c < 0) && (r > 0 <==> c > 0)
  {
    if c < 0 then -1 else if c > 0 then 1 else 0
  }

  /** Lexicographic comparison: the first differing position decides, a proper prefix comes first. */
  function LexCmp<T>(a: seq<T>, b: seq<T>, cmp: (T, T) -> int): int
    decreases |a|
  {
    if a == [] && b == [] then 0
    else if a == [] then -1
    else if b == [] then 1
    else if cmp(a[0], b[0]) != 0 then Sign(cmp(a[0], b[0]))
    else LexCmp(a[1..], b[1..], cmp)
  }

  lemma {:induction false} LexAntisymmetric<T(!new)>(a: seq<T>, b: seq<T>, cmp: (T, T) -> int)
    requires IsTotalOrder(cmp)
    ensures LexCmp(a, b, cmp) == -LexCmp(b, a, cmp)
    decreases |a|
  {
    if a != [] && b != [] {
      assert cmp(a[0], b[0]) == -cmp(b[0], a[0]);
      if cmp(a[0], b[0]) == 0 {
        LexAntisymmetric(a[1..], b[1..], cmp);
      }
    }
  }

  lemma {:induction false} LexZero<T(!new)>(a: seq<T>, b: seq<T>, cmp: (T, T) -> int)
    requires IsTotalOrder(cmp)
    ensures LexCmp(a, b, cmp) == 0 <==> a == b
    decreases |a|
  {
    if a != [] && b != [] {
      if cmp(a[0], b[0]) == 0 {
        assert a[0] == b[0];
        LexZero(a[1..], b[1..], cmp);
        assert a == [a[0]] + a[1..] && b == [b[0]] + b[1..];
      } else {
        assert cmp(a[0], a[0]) == -cmp(a[0], a[0]);
        assert a[0] != b[0];
      }
    }
  }

  lemma {:induction false} LexTransitive<T(!new)>(a: seq<T>, b: seq<T>, c: seq<T>, cmp: (T, T) -> int)
    requires IsTotalOrder(cmp)
    requires LexCmp(a, b, cmp) <= 0 && LexCmp(b, c, cmp) <= 0
    ensures LexCmp(a, c, cmp) <= 0
    decreases |a|
  {
    if a != [] && b != [] && c != [] {
      var ab, bc := cmp(a[0], b[0]), cmp(b[0], c[0]);
      if ab == 0 && bc == 0 {
        assert a[0] == b[0] == c[0];
        assert cmp(a[0], c[0]) == 0 by {
          assert cmp(a[0], a[0]) == -cmp(a[0], a[0]);
        }
        LexTransitive(a[1..], b[1..], c[1..], cmp);
      } else if ab == 0 {
        assert a[0] == b[0];
      } else if bc == 0 {
        assert b[0] == c[0];
      } else {
        assert ab < 0 && bc < 0;
        assert cmp(b[0], a[0]) > 0;
        assert a[0] != c[0];
        assert cmp(a[0], c[0]) < 0;
      }
    }
  }

  /** Lexicographic order inherits totality from the order on elements. */
  lemma LexIsTotalOrder<T(!new)>(cmp: (T, T) -> int)
    requires IsTotalOrder(cmp)
    ensures forall a: seq<T>, b: seq<T> :: LexCmp(a, b, cmp) == -LexCmp(b, a, cmp)
    ensures forall a: seq<T>, b: seq<T> :: LexCmp(a, b, cmp) == 0 ==> a == b
    ensures forall a: seq<T>, b: seq<T>, c: seq<T> ::
      LexCmp(a, b, cmp) <= 0 && LexCmp(b, c, cmp) <= 0 ==> LexCmp(a, c, cmp) <= 0
  {
    forall a: seq<T>, b: seq<T> ensures LexCmp(a, b, cmp) == -LexCmp(b, a, cmp) {
      LexAntisymmetric(a, b, cmp);
    }
    forall a: seq<T>, b: seq<T> ensures LexCmp(a, b, cmp) == 0 ==> a == b {
      LexZero(a, b, cmp);
    }
    forall a: seq<T>, b: seq<T>, c: seq<T> | LexCmp(a, b, cmp) <= 0 && LexCmp(b, c, cmp) <= 0
      ensures LexCmp(a, c, cmp) <= 0
    {
      LexTransitive(a, b, c, cmp);
    }
  }

  /** `cmp` is a total preorder given as a three-way comparison: antisymmetric and transitive. */
  ghost predicate IsPreorder<T(!new)>(cmp: (T, T) -> int) {
    && (forall x, y :: cmp(x, y) == -cmp(y, x))
    && (forall x, y, z :: cmp(x, y) <= 0 && cmp(y, z) <= 0 ==> cmp(x, z) <= 0)
  }

  /** Comparison by `c1`, ties broken by `c2`: one more key of a multi-key sort. */
  function Then<T>(c1: (T, T) -> int, c2: (T, T) -> int): (T, T) -> int {
    (x: T, y: T) => if c1(x, y) != 0 then c1(x, y) else c2(x, y)
  }

  /** Comparison of the keys `key` extracts. */
  function On<T, K>(key: T -> K, cmp: (K, K) -> int): (T, T) -> int {
    (x: T, y: T) => cmp(key(x), key(y))
  }

  /** Breaking the ties of a total preorder by another keeps it a total preorder. */
  lemma ThenPreorder<T(!new)>(c1: (T, T) -> int, c2: (T, T) -> int)
    requires IsPreorder(c1) && IsPreorder(c2)
    ensures IsPreorder(Then(c1, c2))
  {
    var c := Then(c1, c2);
    forall x, y, z | c(x, y) <= 0 && c(y, z) <= 0 ensures c(x, z) <= 0 {
      assert c1(x, y) <= 0 && c1(y, z) <= 0;
      if c1(x, z) == 0 {
        assert c1(z, x) <= 0;
        assert c1(y, x) <= 0 && c1(z, y) <= 0;
        assert c1(x, y) == 0 && c1(y, z) == 0;
      }
    }
  }

  lemma OnPreorder<T(!new), K(!new)>(key: T -> K, cmp: (K, K) -> int)
    requires IsPreorder(cmp)
    ensures IsPreorder(On(key, cmp))
  {
  }
}
