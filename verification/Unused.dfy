/** Numbers for newcomers. */
module Unused {
  /** There is a number above all of these. */
  lemma {:induction false} AboveAll(used: set<nat>) returns (n: nat)
    ensures forall m :: m in used ==> m < n
  {
    if used == {} {
      n := 0;
    } else {
      var m :| m in used;
      var rest := AboveAll(used - {m});
      n := if rest > m then rest else m + 1;
      assert forall x :: x in used ==> x == m || x in used - {m};
    }
  }
}
