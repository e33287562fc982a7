/** Sizes and least elements of finite sets. */
module FiniteSets {
  ghost function Pick<T>(s: set<T>): (x: T)
    requires s != {}
    ensures x in s
  {
    var x :| x in s;
    x
  }

  lemma SubsetSize<T>(a: set<T>, b: set<T>)
    requires a <= b
    ensures |a| <= |b|
  {
    assert b == a + (b - a);
  }

  ghost function Image<T, U>(s: set<T>, f: T -> U): set<U> {
    set x | x in s :: f(x)
  }

  lemma {:induction false} ImageSize<T, U>(s: set<T>, f: T -> U)
    requires forall x, y | x in s && y in s && x != y :: f(x) != f(y)
    ensures |Image(s, f)| == |s|
    decreases |s|
  {
    if s == {} {
      assert Image(s, f) == {};
    } else {
      var x :| x in s;
      ImageSize(s - {x}, f);
      assert Image(s, f) == Image(s - {x}, f) + {f(x)};
    }
  }

  lemma {:induction false} LeastExists(ids: set<int>) returns (m: int)
    requires ids != {}
    ensures m in ids && forall k | k in ids :: m <= k
    decreases |ids|
  {
    m := Pick(ids);
    if ids != {m} {
      var m' := LeastExists(ids - {m});
      assert forall k | k in ids :: k == m || k in ids - {m};
      m := if m <= m' then m else m';
    }
  }
}
