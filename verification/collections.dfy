/** Facts about finite sets of keys that the scans over tables rely on. */
module Collections {

  lemma NonEmptyHasMember(s: set<int>)
    requires s != {}
    ensures exists x :: x in s
  {
    if forall x :: x !in s {
      assert false;
    }
  }

  /** A non-empty finite set of keys has a largest element. */
  lemma MaxExists(s: set<int>) returns (m: int)
    requires s != {}
    ensures m in s && forall x :: x in s ==> x <= m
    decreases s
  {
    NonEmptyHasMember(s);
    var x :| x in s;
    if s == {x} {
      m := x;
    } else {
      var rest := s - {x};
      var m' := MaxExists(rest);
      m := if m' < x then x else m';
      assert forall y :: y in s ==> y == x || y in rest;
    }
  }
}
