/** Set sizes. */
module Sets {

  lemma {:induction false} SubsetSize<T>(a: set<T>, b: set<T>)
    requires a <= b
    ensures |a| <= |b|
  {
    if a != {} {
      var x :| x in a;
      SubsetSize(a - {x}, b - {x});
    }
  }

  lemma NothingLeft<T>(left: set<T>, all: set<T>, taken: set<T>)
    requires left == all - taken && taken <= all && |left| == 0
    ensures left == {} && taken == all
  {
    assert left == {};
    assert forall x :: x in all ==> x in taken;
  }

  lemma {:induction false} FreshNat(used: set<nat>) returns (n: nat)
    ensures forall u :: u in used ==> u < n
  {
    if used == {} {
      n := 0;
    } else {
      var x :| x in used;
      var rest := FreshNat(used - {x});
      n := if x < rest then rest else x + 1;
      assert forall u :: u in used ==> u == x || u in used - {x};
    }
  }
}
