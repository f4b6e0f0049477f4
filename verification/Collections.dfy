/** Options, sequences without repetition, and the size of a subset: what the components share. */
module Collections {

  datatype Option<T> = None | Some(value: T)

  ghost predicate NoDup<T>(q: seq<T>) { forall i, j :: 0 <= i < j < |q| ==> q[i] != q[j] }

  lemma {:induction false} Subset<T>(a: set<T>, b: set<T>)
    requires a <= b
    ensures |a| <= |b|
  {
    if x :| x in a {
      Subset(a - {x}, b - {x});
    }
  }

  /** r is q without x, which occurs at most once. */
  ghost predicate OneOut<T>(q: seq<T>, r: seq<T>, x: T) {
    (x !in q ==> r == q) && forall i :: 0 <= i < |q| && q[i] == x ==> r == q[..i] + q[i + 1..]
  }

  ghost predicate Ahead<T>(q: seq<T>, a: T, b: T) { exists i, j :: 0 <= i < j < |q| && q[i] == a && q[j] == b }

  lemma AheadTail<T>(q: seq<T>, a: T, b: T)
    requires Ahead(q, a, b) && a != q[0]
    ensures Ahead(q[1..], a, b)
  {
    var i, j :| 0 <= i < j < |q| && q[i] == a && q[j] == b;
    assert q[1..][i - 1] == a && q[1..][j - 1] == b;
  }

  lemma AheadBack<T>(q: seq<T>, a: T, b: T, x: T)
    ensures Ahead(q, a, b) ==> Ahead(q + [x], a, b)
    ensures a in q ==> Ahead(q + [x], a, x)
  {
    var r := q + [x];
    if i, j :| 0 <= i < j < |q| && q[i] == a && q[j] == b { assert r[i] == a && r[j] == b; }
    if a in q {
      var i :| 0 <= i < |q| && q[i] == a;
      assert r[i] == a && r[|q|] == x;
    }
  }

  lemma AheadOut<T>(q: seq<T>, r: seq<T>, x: T, a: T, b: T)
    requires OneOut(q, r, x) && Ahead(q, a, b) && x != a && x != b
    ensures Ahead(r, a, b)
  {
    var i, j :| 0 <= i < j < |q| && q[i] == a && q[j] == b;
    if x in q {
      var k :| 0 <= k < |q| && q[k] == x;
      var i', j' := if i < k then i else i - 1, if j < k then j else j - 1;
      assert r[i'] == a && r[j'] == b;
    }
  }
}
