/** The choice of a tap in test/voinuoc.c: each student takes the tap that has poured less, the first on a tie. */
module WaterTaps {

  datatype Tap = First | Second

  function Sum(volumes: seq<nat>): nat
  {
    if volumes == [] then 0 else Sum(volumes[..|volumes| - 1]) + volumes[|volumes| - 1]
  }

  function Largest(volumes: seq<nat>): nat
  {
    if volumes == [] then 0 else Max(Largest(volumes[..|volumes| - 1]), volumes[|volumes| - 1])
  }

  function Max(a: nat, b: nat): nat
  {
    if a < b then b else a
  }

  /** What a tap pours under an assignment of volumes to taps. */
  function Load(volumes: seq<nat>, taps: seq<Tap>, tap: Tap): nat
    requires |taps| == |volumes|
  {
    if volumes == [] then 0
    else
      var n := |volumes| - 1;
      Load(volumes[..n], taps[..n], tap) + if taps[n] == tap then volumes[n] else 0
  }

  /** The larger of the two loads. */
  function Makespan(volumes: seq<nat>, taps: seq<Tap>): nat
    requires |taps| == |volumes|
  {
    Max(Load(volumes, taps, First), Load(volumes, taps, Second))
  }

  lemma {:induction false} LoadsAddUp(volumes: seq<nat>, taps: seq<Tap>)
    requires |taps| == |volumes|
    ensures Load(volumes, taps, First) + Load(volumes, taps, Second) == Sum(volumes)
    ensures Largest(volumes) <= Makespan(volumes, taps)
  {
    if volumes != [] {
      var n := |volumes| - 1;
      LoadsAddUp(volumes[..n], taps[..n]);
    }
  }

  /** Each volume went to the tap that had poured less, the first on a tie. */
  ghost predicate Greedy(volumes: seq<nat>, taps: seq<Tap>)
  {
    && |taps| == |volumes|
    && forall i | 0 <= i < |volumes| ::
         taps[i] == First <==> Load(volumes[..i], taps[..i], First) <= Load(volumes[..i], taps[..i], Second)
  }

  lemma LoadExtended(volumes: seq<nat>, n: nat, taps: seq<Tap>, tap: Tap, t: Tap)
    requires n < |volumes| && |taps| == n
    ensures Load(volumes[..n + 1], taps + [tap], t) == Load(volumes[..n], taps, t) + if t == tap then volumes[n] else 0
    ensures Largest(volumes[..n + 1]) == Max(Largest(volumes[..n]), volumes[n])
  {
    assert volumes[..n + 1][..n] == volumes[..n];
    assert (taps + [tap])[..n] == taps;
  }

  lemma GreedyExtended(volumes: seq<nat>, n: nat, taps: seq<Tap>, tap: Tap)
    requires n < |volumes| && Greedy(volumes[..n], taps)
    requires tap == First <==> Load(volumes[..n], taps, First) <= Load(volumes[..n], taps, Second)
    ensures Greedy(volumes[..n + 1], taps + [tap])
  {
    forall i | 0 <= i <= n
      ensures volumes[..n + 1][..i] == volumes[..n][..i] && (taps + [tap])[..i] == taps[..i]
    {
    }
    assert volumes[..n][..n] == volumes[..n] && taps[..n] == taps;
  }

  /** Any way of pouring in which the loads differ by at most the largest volume is within 3/2 of every other. */
  lemma NearOptimal(volumes: seq<nat>, taps: seq<Tap>, other: seq<Tap>)
    requires |taps| == |volumes| == |other|
    requires var v1, v2 := Load(volumes, taps, First), Load(volumes, taps, Second);
             v1 - v2 <= Largest(volumes) && v2 - v1 <= Largest(volumes)
    ensures 2 * Makespan(volumes, taps) <= 3 * Makespan(volumes, other)
  {
    LoadsAddUp(volumes, taps);
    LoadsAddUp(volumes, other);
  }

  /**
   The loop of one line of students; a volume of zero is poured from neither tap, which is
   recorded as the tap that would have been chosen.
   */
  method Pour(volumes: seq<nat>) returns (v1: nat, v2: nat, taps: seq<Tap>)
    ensures Greedy(volumes, taps) && v1 == Load(volumes, taps, First) && v2 == Load(volumes, taps, Second)
    ensures v1 - v2 <= Largest(volumes) && v2 - v1 <= Largest(volumes)
    ensures forall other: seq<Tap> | |other| == |volumes| :: 2 * Max(v1, v2) <= 3 * Makespan(volumes, other)
  {
    v1, v2, taps := 0, 0, [];
    assert volumes[..0] == [];
    for i := 0 to |volumes|
      invariant |taps| == i
      invariant v1 == Load(volumes[..i], taps, First) && v2 == Load(volumes[..i], taps, Second)
      invariant v1 - v2 <= Largest(volumes[..i]) && v2 - v1 <= Largest(volumes[..i])
      invariant Greedy(volumes[..i], taps)
    {
      var l := volumes[i];
      var tap := if v1 <= v2 then First else Second;
      LoadExtended(volumes, i, taps, tap, First);
      LoadExtended(volumes, i, taps, tap, Second);
      if l != 0 {
        if v1 <= v2 {
          v1 := v1 + l;
        } else {
          v2 := v2 + l;
        }
      }
      GreedyExtended(volumes, i, taps, tap);
      taps := taps + [tap];
    }
    assert volumes[..|volumes|] == volumes;
    forall other: seq<Tap> | |other| == |volumes|
      ensures 2 * Max(v1, v2) <= 3 * Makespan(volumes, other)
    {
      NearOptimal(volumes, taps, other);
    }
  }

  /** The bound is met: the rule pours 1, 1, 2 as 3 and 1, where 2 and 2 would do. */
  lemma BoundIsTight()
    ensures Greedy([1, 1, 2], [First, Second, First])
    ensures Makespan([1, 1, 2], [First, Second, First]) == 3 && Makespan([1, 1, 2], [First, First, Second]) == 2
  {
    var v: seq<nat> := [1, 1, 2];
    assert v[..2] == [1, 1] && v[..1] == [1] && v[..0] == [] && v[..2][..1] == [1];
    var a, b := [First, Second, First], [First, First, Second];
    assert a[..2] == [First, Second] && a[..1] == [First] && a[..0] == [] && a[..2][..1] == [First];
    assert b[..2] == [First, First] && b[..2][..1] == [First];
    assert forall t :: Load([1], [First], t) == if t == First then 1 else 0;
    assert forall t :: Load([1, 1], [First, Second], t) == 1;
    assert forall t :: Load([1, 1], [First, First], t) == if t == First then 2 else 0;
  }
}
