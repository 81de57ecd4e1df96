/** Egg hatch timers of the colony (the `eggs` array of main.js and its
    per-frame hatching pass). An egg is its remaining hatch time; the mesh
    that the source keeps beside it is presentation only. */
module Brood {

  /** EGG_HATCH_TIME: seconds from laying to hatching. */
  const EggHatchTime: real := 10.0

  datatype Egg = Egg(hatchTimer: real)

  /** The egg after one frame of `dt` seconds: empty if it hatches
      (its timer is then at or below zero), otherwise the aged egg. */
  function Aged(e: Egg, dt: real): seq<Egg>
  {
    if e.hatchTimer - dt <= 0.0 then [] else [Egg(e.hatchTimer - dt)]
  }

  /** One hatching pass: every timer loses `dt`, the eggs whose timer is
      then at or below zero hatch and leave the brood, and the others keep
      their relative order. */
  function Survivors(eggs: seq<Egg>, dt: real): (r: seq<Egg>)
    ensures |r| <= |eggs|
    ensures forall i :: 0 <= i < |r| ==> r[i].hatchTimer > 0.0
  {
    if eggs == [] then [] else Aged(eggs[0], dt) + Survivors(eggs[1..], dt)
  }

  /** A pass never raises a timer above the largest one it found, less dt. */
  lemma {:induction false} SurvivorsBounded(eggs: seq<Egg>, dt: real, bound: real)
    requires forall i :: 0 <= i < |eggs| ==> eggs[i].hatchTimer <= bound
    ensures forall i :: 0 <= i < |Survivors(eggs, dt)| ==>
              Survivors(eggs, dt)[i].hatchTimer <= bound - dt
  {
    if eggs != [] {
      SurvivorsBounded(eggs[1..], dt, bound);
    }
  }

  /** Hatching treats each egg on its own: the pass over a concatenation is
      the concatenation of the passes, so order is kept. */
  lemma {:induction false} SurvivorsAppend(a: seq<Egg>, b: seq<Egg>, dt: real)
    ensures Survivors(a + b, dt) == Survivors(a, dt) + Survivors(b, dt)
  {
    if a == [] {
      assert a + b == b;
    } else {
      assert (a + b)[1..] == a[1..] + b;
      SurvivorsAppend(a[1..], b, dt);
    }
  }

  /** A pass of zero seconds over live eggs changes nothing. */
  lemma {:induction false} SurvivorsZero(eggs: seq<Egg>)
    requires forall i :: 0 <= i < |eggs| ==> eggs[i].hatchTimer > 0.0
    ensures Survivors(eggs, 0.0) == eggs
  {
    if eggs != [] {
      SurvivorsZero(eggs[1..]);
      assert eggs == [eggs[0]] + eggs[1..];
    }
  }

  /** Two frames hatch exactly the eggs that one frame of the summed
      duration hatches, and leave the same timers. */
  lemma {:induction false} SurvivorsCompose(eggs: seq<Egg>, dt1: real, dt2: real)
    requires dt2 >= 0.0
    ensures Survivors(Survivors(eggs, dt1), dt2) == Survivors(eggs, dt1 + dt2)
  {
    if eggs != [] {
      var e, tail := eggs[0], eggs[1..];
      calc {
        Survivors(Survivors(eggs, dt1), dt2);
        Survivors(Aged(e, dt1) + Survivors(tail, dt1), dt2);
        { SurvivorsAppend(Aged(e, dt1), Survivors(tail, dt1), dt2); }
        Survivors(Aged(e, dt1), dt2) + Survivors(Survivors(tail, dt1), dt2);
        { SurvivorsCompose(tail, dt1, dt2); AgedTwice(e, dt1, dt2); }
        Aged(e, dt1 + dt2) + Survivors(tail, dt1 + dt2);
        Survivors(eggs, dt1 + dt2);
      }
    }
  }

  /** Two frames age an egg exactly like one frame of their summed time. */
  lemma AgedTwice(e: Egg, dt1: real, dt2: real)
    requires dt2 >= 0.0
    ensures Survivors(Aged(e, dt1), dt2) == Aged(e, dt1 + dt2)
  {
    if e.hatchTimer - dt1 > 0.0 {
      assert [Egg(e.hatchTimer - dt1)][1..] == [];
    }
  }

  /** Total simulated time of a run of frames. */
  function Elapsed(dts: seq<real>): real
  {
    if dts == [] then 0.0 else dts[0] + Elapsed(dts[1..])
  }

  predicate NonNegative(dts: seq<real>)
  {
    forall i :: 0 <= i < |dts| ==> dts[i] >= 0.0
  }

  /** The brood after a run of frames, one hatching pass per frame. */
  function AfterFrames(eggs: seq<Egg>, dts: seq<real>): seq<Egg>
    decreases dts
  {
    if dts == [] then eggs else AfterFrames(Survivors(eggs, dts[0]), dts[1..])
  }

  /** Frames, like a single pass, treat each egg on its own. */
  lemma {:induction false} AfterFramesAppend(a: seq<Egg>, b: seq<Egg>, dts: seq<real>)
    ensures AfterFrames(a + b, dts) == AfterFrames(a, dts) + AfterFrames(b, dts)
    decreases dts
  {
    if dts != [] {
      SurvivorsAppend(a, b, dts[0]);
      AfterFramesAppend(Survivors(a, dts[0]), Survivors(b, dts[0]), dts[1..]);
    }
  }

  lemma {:induction false} ElapsedNonNegative(dts: seq<real>)
    requires NonNegative(dts)
    ensures Elapsed(dts) >= 0.0
  {
    if dts != [] {
      ElapsedNonNegative(dts[1..]);
    }
  }

  /** Hatching does not depend on how time is cut into frames: a run of
      frames acts as a single frame of the total elapsed time. */
  lemma {:induction false} AfterFramesIsOneFrame(eggs: seq<Egg>, dts: seq<real>)
    requires forall i :: 0 <= i < |eggs| ==> eggs[i].hatchTimer > 0.0
    requires NonNegative(dts)
    ensures AfterFrames(eggs, dts) == Survivors(eggs, Elapsed(dts))
    decreases dts
  {
    if dts == [] {
      SurvivorsZero(eggs);
    } else {
      var rest := dts[1..];
      assert NonNegative(rest);
      AfterFramesIsOneFrame(Survivors(eggs, dts[0]), rest);
      ElapsedNonNegative(rest);
      SurvivorsCompose(eggs, dts[0], Elapsed(rest));
    }
  }

  /** An egg with hatch timer `t` is still in the brood, aged by the total
      elapsed time, exactly while that time is below `t`, and is gone from
      the first frame at which it reaches `t`. */
  lemma EggLifetime(t: real, dts: seq<real>)
    requires t > 0.0
    requires NonNegative(dts)
    ensures AfterFrames([Egg(t)], dts) ==
            if Elapsed(dts) < t then [Egg(t - Elapsed(dts))] else []
  {
    AfterFramesIsOneFrame([Egg(t)], dts);
    assert [Egg(t)][1..] == [];
  }
}
