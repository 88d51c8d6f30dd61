// Least and greatest elements of finite sets of integers.
module Extremes {

  lemma SomeElement(s: set<int>) returns (x: int)
    requires s != {}
    ensures x in s
  {
    if forall y: int :: y !in s {
      assert false;
    }
    x :| x in s;
  }

  lemma {:induction false} LeastExists(s: set<int>)
    requires s != {}
    ensures exists m :: m in s && forall x :: x in s ==> m <= x
    decreases |s|
  {
    var x := SomeElement(s);
    var rest := s - {x};
    assert s == rest + {x};
    if rest == {} {
      assert forall y :: y in s ==> x <= y;
    } else {
      LeastExists(rest);
      var m :| m in rest && forall y :: y in rest ==> m <= y;
      var least := if x < m then x else m;
      assert least in s && forall y :: y in s ==> least <= y;
    }
  }

  lemma {:induction false} GreatestExists(s: set<int>)
    requires s != {}
    ensures exists m :: m in s && forall x :: x in s ==> x <= m
    decreases |s|
  {
    var x := SomeElement(s);
    var rest := s - {x};
    assert s == rest + {x};
    if rest == {} {
      assert forall y :: y in s ==> y <= x;
    } else {
      GreatestExists(rest);
      var m :| m in rest && forall y :: y in rest ==> y <= m;
      var greatest := if x > m then x else m;
      assert greatest in s && forall y :: y in s ==> y <= greatest;
    }
  }

  function LeastOf(s: set<int>): (m: int)
    requires s != {}
    ensures m in s && forall x :: x in s ==> m <= x
  {
    LeastExists(s);
    var m :| m in s && forall x :: x in s ==> m <= x;
    m
  }

  function GreatestOf(s: set<int>): (m: int)
    requires s != {}
    ensures m in s && forall x :: x in s ==> x <= m
  {
    GreatestExists(s);
    var m :| m in s && forall x :: x in s ==> x <= m;
    m
  }

  lemma {:induction false} Smaller<V>(m: map<int, V>, t: int)
    ensures t in m ==> |m - {t}| < |m|
  {
    if t in m {
      assert m.Keys == (m - {t}).Keys + {t};
      assert |m.Keys| == |(m - {t}).Keys| + 1;
    }
  }
}
