/**
 * The clock of the particle shader: the `uTime` uniform starts at 0 and every
 * rendered frame adds the seconds elapsed since the previous frame. The
 * shader's use of the clock (drift and twinkle) is not part of this model.
 */
module ParticleClock {

  /** The sum of the frame durations, taken in order. */
  function Elapsed(deltas: seq<real>): real
  {
    if |deltas| == 0 then 0.0 else Elapsed(deltas[..|deltas| - 1]) + deltas[|deltas| - 1]
  }

  /** Splitting the frames in two splits the elapsed time the same way. */
  lemma {:induction false} ElapsedAppend(a: seq<real>, b: seq<real>)
    ensures Elapsed(a + b) == Elapsed(a) + Elapsed(b)
    decreases |b|
  {
    if |b| == 0 {
      assert a + b == a;
    } else {
      var init := b[..|b| - 1];
      assert (a + b)[..|a + b| - 1] == a + init;
      ElapsedAppend(a, init);
    }
  }

  /** Frames of positive duration add up to a positive time; frames of no negative duration, to no negative time. */
  lemma {:induction false} ElapsedSign(deltas: seq<real>)
    ensures (forall k :: 0 <= k < |deltas| ==> deltas[k] >= 0.0) ==> Elapsed(deltas) >= 0.0
    ensures (forall k :: 0 <= k < |deltas| ==> deltas[k] > 0.0) && |deltas| > 0 ==> Elapsed(deltas) > 0.0
    decreases |deltas|
  {
    if |deltas| > 0 {
      var init := deltas[..|deltas| - 1];
      assert forall k :: 0 <= k < |init| ==> init[k] == deltas[k];
      ElapsedSign(init);
    }
  }

  /**
   * Read after any two frames, the clock never runs backwards, and it moves
   * strictly forward when every frame takes some time.
   */
  lemma ClockIsMonotone(deltas: seq<real>, i: nat, j: nat)
    requires i <= j <= |deltas|
    ensures (forall k :: 0 <= k < |deltas| ==> deltas[k] >= 0.0) ==> Elapsed(deltas[..i]) <= Elapsed(deltas[..j])
    ensures (forall k :: 0 <= k < |deltas| ==> deltas[k] > 0.0) && i < j ==> Elapsed(deltas[..i]) < Elapsed(deltas[..j])
  {
    var between := deltas[i..j];
    assert deltas[..j] == deltas[..i] + between;
    ElapsedAppend(deltas[..i], between);
    assert forall k :: 0 <= k < |between| ==> between[k] == deltas[i + k];
    ElapsedSign(between);
  }

  /** The `uTime` uniform of the particle material. */
  class ShaderClock {
    var uTime: real
    /** The durations of the frames rendered so far. */
    ghost var frames: seq<real>

    ghost predicate Valid()
      reads this
    {
      uTime == Elapsed(frames)
    }

    /** The material is created with `uTime` at 0. */
    constructor ()
      ensures Valid() && frames == [] && uTime == 0.0
    {
      uTime := 0.0;
      frames := [];
    }

    /** The frame callback: `uTime += delta`. */
    method Tick(delta: real)
      requires Valid()
      modifies this
      ensures Valid() && frames == old(frames) + [delta]
      ensures uTime == old(uTime) + delta
      ensures delta > 0.0 ==> uTime > old(uTime)
    {
      uTime := uTime + delta;
      frames := frames + [delta];
      assert frames[..|frames| - 1] == old(frames);
    }
  }
}
