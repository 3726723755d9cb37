/**
 * The camera choreographer: the per-frame callback of `CameraController`.
 *
 * Each frame it (1) clears the arrival flag when the section changed since the
 * previous frame, (2) in `projects` latches arrival and leaves the camera to the
 * orbit controls, (3) does nothing once arrived, and otherwise (4) moves the
 * camera a fixed fraction of the way to the section's position, mirrors it into
 * the orbit controls and moves their target by the same fraction toward the
 * section's look target, and (5) latches arrival once the camera is within 0.1
 * of its target position.
 *
 * `FrameStep` is the frame as a function of the state; the class
 * `CameraController` performs the same frame in place on its fields.
 */
module CameraChoreography {
  import opened Vectors
  import opened Sections
  import opened CameraTables

  /** Arrival threshold: `distanceTo(posTarget) < 0.1`, compared squared. */
  const ArrivalRadius2: real := 0.01

  /**
   * For a distance `r` (so that `Mul(r, r)` is the squared distance `Dist2`),
   * the source's test `r < 0.1` and the squared test agree.
   */
  lemma ArrivalTestAgrees(r: real)
    requires r >= 0.0
    ensures r < 0.1 <==> Mul(r, r) < ArrivalRadius2
  {
    if r < 0.1 {
      MulNonneg(r, 0.1 - r);
      MulSub(r, 0.1, r);
    } else {
      MulNonneg(r, r - 0.1);
      MulSub(r, r, 0.1);
    }
  }

  /** `section === 'contact' ? 0.05 : 0.03` */
  function SpeedFor(section: string): (s: real)
    ensures 0.0 < s < 1.0
    ensures section == Id(Contact) ==> s == 0.05
    ensures section != Id(Contact) ==> s == 0.03
  {
    if section == "contact" then 0.05 else 0.03
  }

  /**
   * What one frame reads and writes: `camera.position`, the orbit controls'
   * `target` and `object.position`, the `arrived` and `prevSection` refs, and
   * whether `controlsRef.current` is set.
   */
  datatype CameraState = CameraState(
    position: Vec3,
    orbitTarget: Vec3,
    orbitObjectPosition: Vec3,
    arrived: bool,
    prevSection: string,
    hasControls: bool)

  /** A frame that changes nothing but the refs: `projects`, or already arrived in the same section. */
  predicate Idle(st: CameraState, section: string)
  {
    section == "projects" || (st.prevSection == section && st.arrived)
  }

  /** The orbit controls' camera and the camera coincide, as the copy on every moving frame keeps them. */
  predicate Synced(st: CameraState)
  {
    st.hasControls ==> st.orbitObjectPosition == st.position
  }

  /** Step 1: a section change clears the arrival flag and records the section. */
  function SyncSection(st: CameraState, section: string): (r: CameraState)
    ensures r.prevSection == section
    ensures st.prevSection != section ==> !r.arrived
    ensures st.prevSection == section ==> r.arrived == st.arrived
    ensures r.(arrived := st.arrived, prevSection := st.prevSection) == st
  {
    if st.prevSection != section then st.(arrived := false, prevSection := section) else st
  }

  /** Steps 4 and 5: move toward the section's targets, then test for arrival. */
  function Approach(st: CameraState, section: string): (r: CameraState)
    ensures r.prevSection == st.prevSection && r.hasControls == st.hasControls
    ensures st.hasControls ==> r.orbitObjectPosition == r.position
    ensures !st.hasControls ==> r.orbitTarget == st.orbitTarget && r.orbitObjectPosition == st.orbitObjectPosition
    ensures st.arrived ==> r.arrived
  {
    var posTarget := PositionFor(section);
    var speed := SpeedFor(section);
    var position := Lerp(st.position, posTarget, speed);
    st.(position := position,
        orbitObjectPosition := if st.hasControls then position else st.orbitObjectPosition,
        orbitTarget := if st.hasControls then Lerp(st.orbitTarget, LookTargetFor(section), speed) else st.orbitTarget,
        arrived := if Dist2(position, posTarget) < ArrivalRadius2 then true else st.arrived)
  }

  /** One invocation of the frame callback. */
  function FrameStep(st: CameraState, section: string): (r: CameraState)
    ensures r.prevSection == section
    ensures r.hasControls == st.hasControls
  {
    var synced := SyncSection(st, section);
    if section == "projects" then synced.(arrived := true)
    else if synced.arrived then synced
    else Approach(synced, section)
  }

  /** The state after `n` frames in the same section. */
  function Run(st: CameraState, section: string, n: nat): (r: CameraState)
    ensures r.hasControls == st.hasControls
    ensures n > 0 ==> r.prevSection == section
    ensures n == 0 ==> r == st
    decreases n
  {
    if n == 0 then st else Run(FrameStep(st, section), section, n - 1)
  }

  // ---- one frame ----

  /** A section change resets arrival before anything else, so the new section's motion starts at once. */
  lemma SectionChangeResumesMotion(st: CameraState, section: string)
    requires st.prevSection != section && section != "projects"
    ensures !Idle(st, section)
    ensures FrameStep(st, section).position == Lerp(st.position, PositionFor(section), SpeedFor(section))
  {
  }

  /** In `projects` the frame latches arrival and writes nothing the camera or the controls own. */
  lemma ProjectsLeavesCameraAlone(st: CameraState)
    ensures FrameStep(st, "projects") == st.(arrived := true, prevSection := "projects")
  {
  }

  /** Arrival is sticky: in an unchanged section an arrived frame changes nothing. */
  lemma ArrivedFrameIsNoOp(st: CameraState, section: string)
    requires st.prevSection == section && st.arrived
    ensures FrameStep(st, section) == st
  {
  }

  /**
   * A moving frame lerps the camera toward the section's position with the
   * section's speed: the remaining offset is exactly (1 - speed) times the old
   * one, the squared distance shrinks by (1 - speed)^2 and strictly unless the
   * camera is already there, and no coordinate passes the target.
   */
  lemma MovingFrameApproaches(st: CameraState, section: string)
    requires !Idle(st, section)
    ensures var r := FrameStep(st, section);
      var target := PositionFor(section);
      var s := SpeedFor(section);
      && r.position == Lerp(st.position, target, s)
      && Sub(r.position, target) == Scale(1.0 - s, Sub(st.position, target))
      && Dist2(r.position, target) == Mul(Sq(1.0 - s), Dist2(st.position, target))
      && (st.position != target ==> Dist2(r.position, target) < Dist2(st.position, target))
      && InBox(st.position, r.position, target)
  {
    var target := PositionFor(section);
    var s := SpeedFor(section);
    LerpOffsets(st.position, target, s);
    LerpDistance(st.position, target, s);
    LerpNoOvershoot(st.position, target, s);
  }

  /**
   * On a moving frame with the controls present their camera is set to the new
   * camera position and their target moves toward the look target by the same
   * fraction; without controls only the camera position moves.
   */
  lemma MovingFrameSyncsControls(st: CameraState, section: string)
    requires !Idle(st, section)
    ensures var r := FrameStep(st, section);
      var look := LookTargetFor(section);
      && (st.hasControls ==>
            && r.orbitObjectPosition == r.position
            && r.orbitTarget == Lerp(st.orbitTarget, look, SpeedFor(section))
            && Sub(r.orbitTarget, look) == Scale(1.0 - SpeedFor(section), Sub(st.orbitTarget, look)))
      && (!st.hasControls ==>
            r.orbitObjectPosition == st.orbitObjectPosition && r.orbitTarget == st.orbitTarget)
  {
    LerpOffsets(st.orbitTarget, LookTargetFor(section), SpeedFor(section));
  }

  /** On a moving frame, arrival is set exactly when the new position is within 0.1 of the target. */
  lemma MovingFrameArrival(st: CameraState, section: string)
    requires !Idle(st, section)
    ensures FrameStep(st, section).arrived
            <==> Dist2(FrameStep(st, section).position, PositionFor(section)) < ArrivalRadius2
  {
  }

  /** Every frame keeps the controls' camera in step with the camera. */
  lemma FrameKeepsSynced(st: CameraState, section: string)
    requires Synced(st)
    ensures Synced(FrameStep(st, section))
  {
  }

  // ---- many frames in one section ----

  /** Once arrived in the current section, any number of further frames changes nothing. */
  lemma {:induction false} StaysArrived(st: CameraState, section: string, n: nat)
    requires st.prevSection == section && st.arrived
    ensures Run(st, section, n) == st
    decreases n
  {
    if n > 0 {
      ArrivedFrameIsNoOp(st, section);
      StaysArrived(st, section, n - 1);
    }
  }

  /**
   * While the camera is still travelling, after `k` frames the offsets of the
   * camera and of the orbit target from their targets are the starting
   * offsets scaled by (1 - speed)^k: the direction of approach never flips.
   * The start may be the state in which the section has just changed.
   */
  lemma {:induction false} MotionScales(st: CameraState, section: string, k: nat)
    requires forall j :: 0 <= j < k ==> !Idle(Run(st, section, j), section)
    ensures var r := Run(st, section, k);
      var q := Pow(1.0 - SpeedFor(section), k);
      && Sub(r.position, PositionFor(section)) == Scale(q, Sub(st.position, PositionFor(section)))
      && (st.hasControls ==>
            Sub(r.orbitTarget, LookTargetFor(section)) == Scale(q, Sub(st.orbitTarget, LookTargetFor(section))))
      && (!st.hasControls ==> r.orbitTarget == st.orbitTarget)
    decreases k
  {
    if k == 0 {
      ScaleOne(Sub(st.position, PositionFor(section)));
      ScaleOne(Sub(st.orbitTarget, LookTargetFor(section)));
    } else {
      var next := FrameStep(st, section);
      assert !Idle(Run(st, section, 0), section);
      forall j | 0 <= j < k - 1
        ensures !Idle(Run(next, section, j), section)
      {
        assert Run(st, section, j + 1) == Run(next, section, j);
      }
      MotionScales(next, section, k - 1);
      MotionStep(st, section, Run(next, section, k - 1), Pow(1.0 - SpeedFor(section), k - 1));
    }
  }

  /**
   * If after the first frame the offsets go on to be scaled by `q`, then from
   * the start they are scaled by `q * (1 - speed)`.
   */
  lemma MotionStep(st: CameraState, section: string, r: CameraState, q: real)
    requires !Idle(st, section)
    requires var next := FrameStep(st, section);
      && Sub(r.position, PositionFor(section)) == Scale(q, Sub(next.position, PositionFor(section)))
      && (st.hasControls ==>
            Sub(r.orbitTarget, LookTargetFor(section)) == Scale(q, Sub(next.orbitTarget, LookTargetFor(section))))
      && (!st.hasControls ==> r.orbitTarget == next.orbitTarget)
    ensures var f := Mul(q, 1.0 - SpeedFor(section));
      && Sub(r.position, PositionFor(section)) == Scale(f, Sub(st.position, PositionFor(section)))
      && (st.hasControls ==>
            Sub(r.orbitTarget, LookTargetFor(section)) == Scale(f, Sub(st.orbitTarget, LookTargetFor(section))))
      && (!st.hasControls ==> r.orbitTarget == st.orbitTarget)
  {
    var s := SpeedFor(section);
    MovingFrameApproaches(st, section);
    MovingFrameSyncsControls(st, section);
    ScaleScale(q, 1.0 - s, Sub(st.position, PositionFor(section)));
    ScaleScale(q, 1.0 - s, Sub(st.orbitTarget, LookTargetFor(section)));
  }

  /**
   * While the camera is still travelling with controls, the squared distances
   * of the camera and of the orbit target to their targets shrink by the same
   * factor, so their ratio never changes. In particular, when the camera comes
   * within the arrival radius, the target's squared distance is within the
   * radius times the ratio it started with, counted from the state in which
   * the section changed.
   */
  lemma OffsetsShrinkTogether(st: CameraState, section: string, k: nat)
    requires st.hasControls
    requires forall j :: 0 <= j < k ==> !Idle(Run(st, section, j), section)
    ensures var r := Run(st, section, k);
      Mul(Dist2(r.orbitTarget, LookTargetFor(section)), Dist2(st.position, PositionFor(section)))
        == Mul(Dist2(r.position, PositionFor(section)), Dist2(st.orbitTarget, LookTargetFor(section)))
    ensures var r := Run(st, section, k);
      Dist2(r.position, PositionFor(section)) < ArrivalRadius2 ==>
        Mul(Dist2(r.orbitTarget, LookTargetFor(section)), Dist2(st.position, PositionFor(section)))
          <= Mul(ArrivalRadius2, Dist2(st.orbitTarget, LookTargetFor(section)))
  {
    var r := Run(st, section, k);
    var q := Pow(1.0 - SpeedFor(section), k);
    MotionScales(st, section, k);
    Norm2Scale(q, Sub(st.position, PositionFor(section)));
    Norm2Scale(q, Sub(st.orbitTarget, LookTargetFor(section)));
    MulSwap(Sq(q), Dist2(st.orbitTarget, LookTargetFor(section)), Dist2(st.position, PositionFor(section)));
    if Dist2(r.position, PositionFor(section)) < ArrivalRadius2 {
      MulMonoLeft(Dist2(r.position, PositionFor(section)), ArrivalRadius2, Dist2(st.orbitTarget, LookTargetFor(section)));
    }
  }

  // ---- arrival in finitely many frames ----

  /**
   * The least amount by which a moving frame that does not arrive shrinks the
   * squared distance: 0.01 * (1 - (1 - speed)^2).
   */
  function Progress(section: string): (c: real)
    ensures c > 0.0
  {
    SquareBelowOne(1.0 - SpeedFor(section));
    ArrivalRadius2 * (1.0 - Sq(1.0 - SpeedFor(section)))
  }

  /** A frame that moves without arriving shrinks the squared distance by at least `Progress`. */
  lemma ProgressStep(f: real, d: real)
    requires 0.0 < f < 1.0 && d >= 0.0
    requires Mul(f, d) >= ArrivalRadius2
    ensures Mul(f, d) <= d - ArrivalRadius2 * (1.0 - f)
  {
    MulZero(f);
    ShrinkStrict(f, d);
    MulNonneg(1.0 - f, d - ArrivalRadius2);
    MulSub(1.0 - f, d, ArrivalRadius2);
    MulOne(d);
    MulSub(d, 1.0, f);
    assert Mul(d, 1.0) - Mul(d, f) == Mul(d, 1.0 - f);
  }

  /** `n * Progress` minus one `Progress`. */
  lemma MulPred(n: nat, c: real)
    requires n > 0
    ensures Mul(n as real, c) - c == Mul((n - 1) as real, c)
  {
  }

  /**
   * With the section already recorded, a squared distance of at most
   * `n * Progress` is covered within `n + 1` frames.
   */
  lemma {:induction false} ArrivesWithin(st: CameraState, section: string, n: nat)
    requires section != "projects" && st.prevSection == section
    requires Dist2(st.position, PositionFor(section)) <= Mul(n as real, Progress(section))
    ensures Run(st, section, n + 1).arrived
    decreases n
  {
    if st.arrived {
      StaysArrived(st, section, n + 1);
    } else {
      var next := FrameStep(st, section);
      assert Run(st, section, n + 1) == Run(next, section, n);
      if next.arrived {
        StaysArrived(next, section, n);
      } else {
        FrameMakesProgress(st, section);
        CountDown(Dist2(next.position, PositionFor(section)), Dist2(st.position, PositionFor(section)),
                  Progress(section), n);
        ArrivesWithin(next, section, n - 1);
      }
    }
  }

  /**
   * A distance that started within `n` steps of size `c` and lost at least `c`
   * is within `n - 1` steps; in particular `n` was not zero.
   */
  lemma CountDown(next: real, d: real, c: real, n: nat)
    requires next >= 0.0 && c > 0.0
    requires next <= d - c && d <= Mul(n as real, c)
    ensures n > 0 && next <= Mul((n - 1) as real, c)
  {
    MulZero(c);
    if n > 0 {
      MulPred(n, c);
    }
  }

  /** A frame that moves but does not arrive takes at least `Progress` off the squared distance. */
  lemma FrameMakesProgress(st: CameraState, section: string)
    requires section != "projects" && st.prevSection == section && !st.arrived
    requires !FrameStep(st, section).arrived
    ensures Dist2(FrameStep(st, section).position, PositionFor(section))
            <= Dist2(st.position, PositionFor(section)) - Progress(section)
  {
    var f := Sq(1.0 - SpeedFor(section));
    MovingFrameApproaches(st, section);
    MovingFrameArrival(st, section);
    SquareBelowOne(1.0 - SpeedFor(section));
    ProgressStep(f, Dist2(st.position, PositionFor(section)));
  }

  /** The floor of a non-negative real, as a natural number. */
  function FloorNat(x: real): (n: nat)
    requires x >= 0.0
    ensures x < (n + 1) as real
  {
    x.Floor
  }

  /**
   * A number of frames after which the camera has arrived, from any state:
   * one frame in `projects`; otherwise enough frames to cover the squared
   * distance at `Progress` per frame, plus the frame that records the section.
   */
  function FrameBound(st: CameraState, section: string): nat
  {
    if section == "projects" then 1
    else DivBound(Dist2(st.position, PositionFor(section)), Progress(section)) + 2
  }

  /** The least whole number of `c`-sized steps that covers `d`, plus one. */
  function DivBound(d: real, c: real): (n: nat)
    requires d >= 0.0 && c > 0.0
    ensures d <= Mul(n as real, c)
  {
    var k := d / c;
    DivFacts(d, c);
    var n := FloorNat(k) + 1;
    MulMonoLeft(k, n as real, c);
    n
  }

  lemma DivFacts(d: real, c: real)
    requires d >= 0.0 && c > 0.0
    ensures d / c >= 0.0 && Mul(d / c, c) == d
  {
  }

  lemma MulMonoLeft(a: real, b: real, c: real)
    requires a <= b && c >= 0.0
    ensures Mul(a, c) <= Mul(b, c)
  {
    MulNonneg(b - a, c);
  }

  /**
   * Arrival is reached after finitely many frames in one section, from any
   * state, for frames in which `controls.update()` changes nothing.
   */
  lemma EventuallyArrives(st: CameraState, section: string)
    ensures Run(st, section, FrameBound(st, section)).arrived
  {
    var first := FrameStep(st, section);
    if section == "projects" {
      assert Run(st, section, 1) == first;
    } else {
      var n := DivBound(Dist2(st.position, PositionFor(section)), Progress(section));
      assert FrameBound(st, section) == n + 2;
      assert Run(st, section, n + 2) == Run(first, section, n + 1);
      if first.arrived {
        StaysArrived(first, section, n + 1);
      } else {
        FirstFrameApproaches(st, section);
        ArrivesWithin(first, section, n);
      }
    }
  }

  /** The first frame in a section records it and takes the camera no further from its position. */
  lemma FirstFrameApproaches(st: CameraState, section: string)
    requires section != "projects" && !FrameStep(st, section).arrived
    ensures FrameStep(st, section).prevSection == section
    ensures Dist2(FrameStep(st, section).position, PositionFor(section)) <= Dist2(st.position, PositionFor(section))
  {
    assert !Idle(st, section);
    MovingFrameApproaches(st, section);
  }

  // ---- scenarios ----

  /** The state when the scene mounts: camera at [4, 5, -16], orbit target at the origin, section `home`. */
  function InitialState(hasControls: bool): (r: CameraState)
    ensures r.position == PositionFor("home") && r.orbitTarget == LookTargetFor("home")
    ensures !r.arrived && r.prevSection == "home" && r.hasControls == hasControls && Synced(r)
  {
    CameraState(Vec3(4.0, 5.0, -16.0), Origin, Vec3(4.0, 5.0, -16.0), false, "home", hasControls)
  }

  /** The camera starts on the home position, so the first home frame arrives without moving it. */
  lemma InitialHomeArrivesAtOnce(hasControls: bool)
    ensures FrameStep(InitialState(hasControls), "home").arrived
    ensures FrameStep(InitialState(hasControls), "home").position == Vec3(4.0, 5.0, -16.0)
  {
    var st := InitialState(hasControls);
    var home := PositionFor("home");
    assert home == st.position;
    assert !Idle(st, "home");
    MovingFrameApproaches(st, "home");
    MovingFrameArrival(st, "home");
    LerpSelf(home, SpeedFor("home"));
    Dist2Self(home);
  }

  /**
   * Arrival is tested on the camera position only, so the orbit target can stop
   * short of the look target: when the camera already sits on the section's
   * position while the target is elsewhere, one frame latches arrival with the
   * target still off the look target; by `StaysArrived` no later frame in the
   * section moves it.
   */
  lemma LookTargetCanStopShort(st: CameraState, section: string)
    requires !Idle(st, section) && st.hasControls
    requires st.position == PositionFor(section) && st.orbitTarget != LookTargetFor(section)
    ensures var r := FrameStep(st, section);
      && r.arrived && r.prevSection == section
      && r.orbitTarget == Lerp(st.orbitTarget, LookTargetFor(section), SpeedFor(section))
      && r.orbitTarget != LookTargetFor(section)
  {
    var target := PositionFor(section);
    MovingFrameApproaches(st, section);
    MovingFrameArrival(st, section);
    MovingFrameSyncsControls(st, section);
    LerpSelf(target, SpeedFor(section));
    Dist2Self(target);
    LerpNeverLands(st.orbitTarget, LookTargetFor(section), SpeedFor(section));
  }

  /**
   * The camera on the home position with the orbit target on the contact look
   * target and `contact` recorded as the last section. The frames alone do not
   * produce this state (the camera and the target always move together); it
   * stands for a state left behind by the orbit controls (their own `update()`
   * or user input), which this model does not follow.
   */
  const BackHomeLookingAtContact: CameraState :=
    CameraState(Vec3(4.0, 5.0, -16.0), Vec3(6.0, 0.0, 0.0), Vec3(4.0, 5.0, -16.0), true, "contact", true)

  /** From that state one `home` frame latches arrival with the target short of the origin. */
  lemma ContactToHomeStopsShort()
    ensures FrameStep(BackHomeLookingAtContact, "home").arrived
    ensures FrameStep(BackHomeLookingAtContact, "home").orbitTarget != Origin
  {
    var st := BackHomeLookingAtContact;
    assert st.position == PositionFor("home");
    assert LookTargetFor("home") == Origin;
    assert !Idle(st, "home");
    LookTargetCanStopShort(st, "home");
  }

  /** The exact lerp never lands on a target it did not start on: arrival is always within, never at. */
  lemma LerpNeverLands(p: Vec3, t: Vec3, s: real)
    requires 0.0 < s < 1.0 && p != t
    ensures Lerp(p, t, s) != t
  {
    LerpDistance(p, t, s);
  }

  // ---- the component, state updated in place ----

  class CameraController {
    var position: Vec3
    var orbitTarget: Vec3
    var orbitObjectPosition: Vec3
    var arrived: bool
    var prevSection: string
    var hasControls: bool

    function State(): CameraState
      reads this
    {
      CameraState(position, orbitTarget, orbitObjectPosition, arrived, prevSection, hasControls)
    }

    /**
     * Mounting: `arrived` starts false and `prevSection` holds the section of
     * the first render; the orbit controls' camera is the camera.
     */
    constructor (section: string, cameraPosition: Vec3, target: Vec3, controlsPresent: bool)
      ensures State() == CameraState(cameraPosition, target, cameraPosition, false, section, controlsPresent)
      ensures Synced(State())
    {
      position := cameraPosition;
      orbitTarget := target;
      orbitObjectPosition := cameraPosition;
      arrived := false;
      prevSection := section;
      hasControls := controlsPresent;
    }

    /** The `useFrame` callback, run once per rendered frame with the current section. */
    method Frame(section: string)
      modifies this
      ensures State() == FrameStep(old(State()), section)
      ensures prevSection == section && hasControls == old(hasControls)
      ensures section == "projects" ==>
        arrived && position == old(position) && orbitTarget == old(orbitTarget)
        && orbitObjectPosition == old(orbitObjectPosition)
      ensures old(prevSection) == section && old(arrived) ==> State() == old(State())
      ensures old(Synced(State())) ==> Synced(State())
    {
      ghost var st0 := State();
      if Synced(st0) {
        FrameKeepsSynced(st0, section);
      }
      if section == "projects" {
        ProjectsLeavesCameraAlone(st0);
      }
      if st0.prevSection == section && st0.arrived {
        ArrivedFrameIsNoOp(st0, section);
      }

      if prevSection != section {
        arrived := false;
        prevSection := section;
      }
      assert State() == SyncSection(st0, section);

      if section == "projects" {
        arrived := true;
        assert State() == FrameStep(st0, section);
        return;
      }

      if arrived {
        assert State() == FrameStep(st0, section);
        return;
      }

      Move(section);
    }

    /** Steps 4 and 5 of the callback: lerp toward the section's targets, then test for arrival. */
    method Move(section: string)
      modifies this
      ensures State() == Approach(old(State()), section)
    {
      ghost var st0 := State();
      ghost var r := Approach(st0, section);
      var posTarget := PositionFor(section);
      var speed := SpeedFor(section);
      position := Lerp(position, posTarget, speed);
      assert position == r.position;

      if hasControls {
        orbitObjectPosition := position;
        orbitTarget := Lerp(orbitTarget, LookTargetFor(section), speed);
      }
      assert orbitObjectPosition == r.orbitObjectPosition && orbitTarget == r.orbitTarget;

      if Dist2(position, posTarget) < ArrivalRadius2 {
        arrived := true;
      }
      assert arrived == r.arrived;
    }
  }
}
