/** Names that are not in use. */
module FreshIds {

  lemma {:induction false} FreshId(s: set<nat>) returns (z: nat)
    ensures z !in s && forall x :: x in s ==> x < z
    decreases |s|
  {
    if s == {} {
      z := 0;
    } else {
      var x :| x in s;
      var y := FreshId(s - {x});
      z := if x < y then y else x + 1;
      assert forall w :: w in s ==> w == x || w in s - {x};
    }
  }
}
