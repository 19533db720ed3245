/** Names shared by the modules of several services. */
module Basics {

  type WorkspaceId = nat

  function Min(a: int, b: int): int {
    if a <= b then a else b
  }

  /** Positions in ascending order, which is how a list kept in order is described by where it comes from. */
  ghost predicate Increasing(ps: seq<nat>) {
    forall i, j | 0 <= i < j < |ps| :: ps[i] < ps[j]
  }

  /** A list in ascending order is determined by its members. */
  lemma {:induction false} IncreasingIsUnique(ps: seq<nat>, qs: seq<nat>)
    requires Increasing(ps) && Increasing(qs) && forall n: nat :: n in ps <==> n in qs
    ensures ps == qs
    decreases |ps|
  {
    assert qs != [] ==> qs[0] in qs;
    assert ps != [] ==> ps[0] in ps;
    if ps != [] {
      var p, q := |ps| - 1, |qs| - 1;
      assert ps[p] in qs && qs[q] in ps;
      assert ps[p] == qs[q];
      forall n: nat ensures n in ps[..p] <==> n in qs[..q] {
        assert n in ps[..p] <==> n in ps && n != ps[p];
        assert n in qs[..q] <==> n in qs && n != qs[q];
      }
      IncreasingIsUnique(ps[..p], qs[..q]);
    }
  }
}
