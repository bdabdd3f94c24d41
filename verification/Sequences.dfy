/** What several of the models say about sequences. */
module Sequences {

  ghost predicate Distinct<T>(s: seq<T>) {
    forall i, j :: 0 <= i < j < |s| ==> s[i] != s[j]
  }

  /** What holds at the start of a run and survives every step holds everywhere in it. */
  lemma {:induction false} InvariantOfRun<S>(run: seq<S>, i: nat, inv: S -> bool)
    requires i < |run| && inv(run[0])
    requires forall k :: 0 <= k < |run| - 1 && inv(run[k]) ==> inv(run[k + 1])
    ensures inv(run[i])
  {
    if i > 0 {
      InvariantOfRun(run, i - 1, inv);
      assert inv(run[i - 1 + 1]);
    }
  }
}
