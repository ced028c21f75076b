/** Sizes of finite sets of integers. */
module FiniteSets {

  ghost function Image(s: set<int>, f: int -> int): set<int> {
    set x | x in s :: f(x)
  }

  lemma Member<T>(s: set<T>) returns (a: T)
    requires s != {}
    ensures a in s
  {
    a :| a in s;
  }

  lemma {:induction false} InjectiveImage(s: set<int>, f: int -> int)
    requires forall x, y :: x in s && y in s && f(x) == f(y) ==> x == y
    ensures |Image(s, f)| == |s|
  {
    if s == {} {
      assert Image(s, f) == {};
    } else {
      var a := Member(s);
      var t := s - {a};
      InjectiveImage(t, f);
      assert f(a) !in Image(t, f);
      assert Image(s, f) == Image(t, f) + {f(a)};
    }
  }

  /** The first `n` numbers. */
  ghost function Below(n: nat): (r: set<int>)
    ensures |r| == n && forall i :: i in r <==> 0 <= i < n
  {
    if n == 0 then {} else Below(n - 1) + {n - 1}
  }

  lemma SubsetOfSameSize(a: set<int>, b: set<int>)
    requires a <= b && |a| == |b|
    ensures a == b
  {
    assert |b - a| == |b| - |a|;
  }

  lemma {:induction false} LeastExists(s: set<int>) returns (x: int)
    requires s != {}
    ensures x in s && forall y :: y in s ==> x <= y
  {
    var a := Member(s);
    if s == {a} {
      x := a;
    } else {
      var t := s - {a};
      assert t != {} by {
        assert t == {} ==> s == {a};
      }
      var b := LeastExists(t);
      x := if a < b then a else b;
      assert forall y :: y in s ==> y == a || y in t;
    }
  }

  /** The first element in ascending order, as an ordered container iterates. */
  method First(s: set<int>) returns (x: int)
    requires s != {}
    ensures x in s && forall y :: y in s ==> x <= y
  {
    ghost var least := LeastExists(s);
    x :| x in s && forall y :: y in s ==> x <= y;
  }
}
