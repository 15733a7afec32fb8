/** Ascending order of integer keys: what `[...m.keys()].sort((a, b) => a - b)`
    produces, and the order in which `for ... in` and `Object.keys` visit the
    integer-like keys of a plain object. */
module Keys {

  predicate StrictlyIncreasing(s: seq<int>)
  {
    forall i, j | 0 <= i < j < |s| :: s[i] < s[j]
  }

  lemma {:induction false} MinExists(s: set<int>)
    requires s != {}
    ensures exists m :: m in s && forall x | x in s :: m <= x
    decreases |s|
  {
    NonEmptyHasElement(s);
    var x :| x in s;
    if s != {x} {
      MinExists(s - {x});
      var m :| m in s - {x} && forall y | y in s - {x} :: m <= y;
      var least := if x < m then x else m;
      forall y | y in s ensures least <= y {
        if y != x { assert y in s - {x}; }
      }
    } else {
      assert forall y | y in s :: x <= y;
    }
  }

  lemma NonEmptyHasElement(s: set<int>)
    requires s != {}
    ensures exists x :: x in s
  {
    if forall x :: x !in s {
      assert false;
    }
  }

  /** The least element of a non-empty finite set of integers. */
  function Min(s: set<int>): (m: int)
    requires s != {}
    ensures m in s && forall x | x in s :: m <= x
  {
    MinExists(s);
    var m :| m in s && forall x | x in s :: m <= x;
    m
  }

  /** The greatest element of a non-empty finite set of integers. */
  function Max(s: set<int>): (m: int)
    requires s != {}
    ensures m in s && forall x | x in s :: x <= m
  {
    NonEmptyHasElement(s);
    var x :| x in s;
    var negated := set y | y in s :: -y;
    assert -x in negated;
    var n := Min(negated);
    assert -n in s;
    assert forall y | y in s :: y <= -n by {
      forall y | y in s ensures y <= -n {
        assert -y in negated;
      }
    }
    -n
  }

  /** The elements of `s`, each once, in ascending numeric order. */
  function SortedKeys(s: set<int>): (r: seq<int>)
    ensures StrictlyIncreasing(r)
    ensures forall x :: x in r <==> x in s
    ensures |r| == |s|
    decreases |s|
  {
    if s == {} then []
    else
      var m := Min(s);
      var rest := SortedKeys(s - {m});
      assert forall i | 0 <= i < |rest| :: m < rest[i] by {
        forall i | 0 <= i < |rest| ensures m < rest[i] {
          assert rest[i] in s - {m};
        }
      }
      [m] + rest
  }
}
