/** Lists of checks, looked through for one kind of check. */
module Checklists {

  /** No check is one that `bad` describes. */
  ghost predicate Lacks<C>(checks: seq<C>, bad: C -> bool) {
    forall i | 0 <= i < |checks| :: !bad(checks[i])
  }

  lemma LacksConcat<C>(a: seq<C>, c: seq<C>, bad: C -> bool)
    ensures Lacks(a + c, bad) <==> Lacks(a, bad) && Lacks(c, bad)
  {
    if Lacks(a + c, bad) {
      assert forall i | 0 <= i < |a| :: a[i] == (a + c)[i];
      assert forall i | 0 <= i < |c| :: c[i] == (a + c)[|a| + i];
    }
  }

  lemma LacksOne<C>(c: C, bad: C -> bool)
    ensures Lacks([], bad) && (Lacks([c], bad) <==> !bad(c))
  {
    assert [c][0] == c;
  }

  lemma LacksFew<C>(x: seq<C>, bad: C -> bool)
    requires |x| <= 5
    ensures Lacks(x, bad) <==>
      && (|x| > 0 ==> !bad(x[0])) && (|x| > 1 ==> !bad(x[1])) && (|x| > 2 ==> !bad(x[2]))
      && (|x| > 3 ==> !bad(x[3])) && (|x| > 4 ==> !bad(x[4]))
  {
  }
}
