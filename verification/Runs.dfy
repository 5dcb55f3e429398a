/** Finite runs of a transition relation, and what a relation that keeps a property keeps over
    every run of it. */
module Runs {

  /** Taking the steps xs in order leads from s to t. */
  ghost predicate Run<S(!new), X(!new)>(move: (S, X, S) -> bool, s: S, xs: seq<X>, t: S)
    decreases |xs|
  {
    if xs == [] then s == t
    else exists u :: move(s, xs[0], u) && Run(move, u, xs[1..], t)
  }

  ghost predicate Keeps<S(!new), X(!new)>(move: (S, X, S) -> bool, inv: S -> bool) {
    forall s, x, t :: inv(s) && move(s, x, t) ==> inv(t)
  }

  lemma {:induction false} RunKeeps<S(!new), X(!new)>(move: (S, X, S) -> bool, inv: S -> bool, s: S, xs: seq<X>, t: S)
    requires Keeps(move, inv) && inv(s) && Run(move, s, xs, t)
    ensures inv(t)
    decreases |xs|
  {
    if xs != [] {
      var u :| move(s, xs[0], u) && Run(move, u, xs[1..], t);
      RunKeeps(move, inv, u, xs[1..], t);
    }
  }

  lemma RunOne<S(!new), X(!new)>(move: (S, X, S) -> bool, s: S, x: X, t: S)
    requires move(s, x, t)
    ensures Run(move, s, [x], t)
  {
    assert Run(move, t, [x][1..], t);
  }

  lemma {:induction false} RunConcat<S(!new), X(!new)>(move: (S, X, S) -> bool, s: S, xs: seq<X>, t: S, ys: seq<X>,
                                                       u: S)
    requires Run(move, s, xs, t) && Run(move, t, ys, u)
    ensures Run(move, s, xs + ys, u)
    decreases |xs|
  {
    if xs == [] {
      assert xs + ys == ys;
    } else {
      var v :| move(s, xs[0], v) && Run(move, v, xs[1..], t);
      RunConcat(move, v, xs[1..], t, ys, u);
      assert (xs + ys)[1..] == xs[1..] + ys;
    }
  }

  lemma RunSnoc<S(!new), X(!new)>(move: (S, X, S) -> bool, s: S, xs: seq<X>, t: S, x: X, u: S)
    requires Run(move, s, xs, t) && move(t, x, u)
    ensures Run(move, s, xs + [x], u)
  {
    RunOne(move, t, x, u);
    RunConcat(move, s, xs, t, [x], u);
  }

  lemma {:induction false} RunLast<S(!new), X(!new)>(move: (S, X, S) -> bool, s: S, xs: seq<X>, x: X, t: S)
    returns (u: S)
    requires Run(move, s, xs + [x], t)
    ensures Run(move, s, xs, u) && move(u, x, t)
    decreases |xs|
  {
    if xs == [] {
      assert (xs + [x])[1..] == [];
      u := s;
    } else {
      assert (xs + [x])[1..] == xs[1..] + [x];
      var v :| move(s, xs[0], v) && Run(move, v, xs[1..] + [x], t);
      u := RunLast(move, v, xs[1..], x, t);
    }
  }
}
