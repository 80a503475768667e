/** Runs of any kind: states that follow one another by steps, one for each event. */
module Chains {

  type Relation<!S, !E> = (S, E, S) -> bool

  ghost predicate IsChain<S, E>(ss: seq<S>, es: seq<E>, step: Relation<S, E>)
  {
    |ss| == |es| + 1 && forall i | 0 <= i < |es| :: step(ss[i], es[i], ss[i + 1])
  }

  /** What every step of a run keeps holds in every state of it. */
  lemma {:induction false} ChainKeeps<S(!new), E>(ss: seq<S>, es: seq<E>, k: nat, step: Relation<S, E>, good: S -> bool)
    requires IsChain(ss, es, step) && good(ss[0]) && k < |ss|
    requires forall s, e, t | e in es && good(s) && step(s, e, t) :: good(t)
    ensures good(ss[k])
  {
    if k > 0 {
      ChainKeeps(ss, es, k - 1, step, good);
      assert step(ss[k - 1], es[k - 1], ss[k]);
    }
  }

  lemma ChainFront<S, E>(ss: seq<S>, es: seq<E>, step: Relation<S, E>)
    requires IsChain(ss, es, step) && es != []
    ensures IsChain(ss[..|es|], es[..|es| - 1], step)
  {
    forall i | 0 <= i < |es| - 1
      ensures step(ss[..|es|][i], es[..|es| - 1][i], ss[..|es|][i + 1])
    {
      assert step(ss[i], es[i], ss[i + 1]);
    }
  }

  lemma ChainThen<S, E>(ss: seq<S>, es: seq<E>, step: Relation<S, E>, e: E, t: S)
    requires IsChain(ss, es, step) && step(ss[|es|], e, t)
    ensures IsChain(ss + [t], es + [e], step)
  {
    var ts, fs := ss + [t], es + [e];
    forall i | 0 <= i < |fs|
      ensures step(ts[i], fs[i], ts[i + 1])
    {
      if i < |es| {
        assert step(ss[i], es[i], ss[i + 1]);
      }
    }
  }

  /** A run that starts where another has ended goes on with it. */
  lemma ChainAppend<S, E>(ss: seq<S>, es: seq<E>, ts: seq<S>, fs: seq<E>, step: Relation<S, E>)
    requires IsChain(ss, es, step) && IsChain(ts, fs, step) && ts[0] == ss[|es|]
    ensures IsChain(ss + ts[1..], es + fs, step)
  {
    var us, gs := ss + ts[1..], es + fs;
    forall i | 0 <= i < |gs|
      ensures step(us[i], gs[i], us[i + 1])
    {
      if i < |es| {
        assert step(ss[i], es[i], ss[i + 1]);
      } else {
        assert step(ts[i - |es|], fs[i - |es|], ts[i - |es| + 1]);
      }
    }
  }
}
