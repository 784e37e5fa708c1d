/** Choosing from sets, and counting them. */
module Sets {
  lemma SomeMember(xs: set<int>)
    requires xs != {}
    ensures exists x :: x in xs
  {
    assert xs == (set x | x in xs);
    if forall x :: x !in xs {
      assert false;
    }
  }

  lemma {:induction false} SubsetCount<T>(xs: set<T>, ys: set<T>)
    requires xs <= ys
    ensures |xs| <= |ys|
  {
    if xs != {} {
      var x :| x in xs;
      SubsetCount(xs - {x}, ys - {x});
    }
  }
}
