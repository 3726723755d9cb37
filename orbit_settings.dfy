/**
 * The settings the scene passes to its orbit controls. Damping, auto-rotation
 * and the distance range are the same in every section; the section decides
 * whether the user may rotate, zoom and pan (not while the contact form is
 * shown) and how fast the view turns on its own (slower under `lostfocus`).
 */
module OrbitSettings {
  import opened Vectors
  import opened Sections
  import opened CameraTables

  datatype OrbitProps = OrbitProps(
    enableDamping: bool,
    dampingFactor: real,
    autoRotate: bool,
    autoRotateSpeed: real,
    minDistance: real,
    maxDistance: real,
    enableRotate: bool,
    enableZoom: bool,
    enablePan: bool)

  /** `section === 'lostfocus'` */
  predicate IsLostFocus(section: string)
  {
    section == "lostfocus"
  }

  /** `section === 'contact'` */
  predicate IsContact(section: string)
  {
    section == "contact"
  }

  /** The props of the `<OrbitControls>` element for the current section. */
  function OrbitPropsFor(section: string): OrbitProps
  {
    var isLostFocus := IsLostFocus(section);
    var isContact := IsContact(section);
    OrbitProps(
      enableDamping := true,
      dampingFactor := 0.05,
      autoRotate := true,
      autoRotateSpeed := if isLostFocus then 0.1 else 0.3,
      minDistance := 5.0,
      maxDistance := 50.0,
      enableRotate := !isContact,
      enableZoom := !isContact,
      enablePan := !isContact)
  }

  /** User input (rotate, zoom and pan alike) is switched off exactly in the contact section. */
  lemma ContactFreezesInput(section: string)
    ensures var p := OrbitPropsFor(section);
      && (p.enableRotate <==> Parse(section) != Some(Contact))
      && p.enableRotate == p.enableZoom == p.enablePan
  {
  }

  /** Auto-rotation runs everywhere, at a third of its usual speed exactly in the lost-focus section. */
  lemma LostFocusRotatesSlower(section: string)
    ensures var p := OrbitPropsFor(section);
      && p.autoRotate && p.autoRotateSpeed > 0.0
      && (p.autoRotateSpeed < OrbitPropsFor(Id(Home)).autoRotateSpeed <==> Parse(section) == Some(LostFocus))
      && (Parse(section) == Some(LostFocus) ==> 3.0 * p.autoRotateSpeed == OrbitPropsFor(Id(Home)).autoRotateSpeed)
    ensures Parse(section) == Some(LostFocus) ==> OrbitPropsFor(section).autoRotateSpeed == 0.1
    ensures Parse(section) != Some(LostFocus) ==> OrbitPropsFor(section).autoRotateSpeed == 0.3
  {
  }

  /** Apart from the input and rotation-speed settings, every section gets the same props. */
  lemma SectionIndependentProps(a: string, b: string)
    ensures OrbitPropsFor(a).(autoRotateSpeed := 0.0, enableRotate := true, enableZoom := true, enablePan := true)
         == OrbitPropsFor(b).(autoRotateSpeed := 0.0, enableRotate := true, enableZoom := true, enablePan := true)
    ensures OrbitPropsFor(a).enableDamping && OrbitPropsFor(a).dampingFactor == 0.05
    ensures OrbitPropsFor(a).minDistance == 5.0 && OrbitPropsFor(a).maxDistance == 50.0
  {
  }

  /** Outside `contact` and `lostfocus` the controls behave exactly as on the home section. */
  lemma OtherSectionsActLikeHome(section: string)
    requires Parse(section) != Some(Contact) && Parse(section) != Some(LostFocus)
    ensures OrbitPropsFor(section) == OrbitPropsFor(Id(Home))
  {
  }

  /**
   * Every section's camera position lies inside the controls' distance range
   * around that section's look target (squared: between 5^2 and 50^2), so
   * the pose the camera flies to is one the controls accept as it is.
   */
  lemma SectionPosesWithinDistanceRange(section: string)
    ensures var d := Dist2(PositionFor(section), LookTargetFor(section));
      var p := OrbitPropsFor(section);
      Mul(p.minDistance, p.minDistance) <= d <= Mul(p.maxDistance, p.maxDistance)
  {
    LookupFallsBackToHome(section);
    var p := OrbitPropsFor(section);
    assert Mul(p.minDistance, p.minDistance) == 25.0 && Mul(p.maxDistance, p.maxDistance) == 2500.0;
    if section == "lostfocus" {
      assert Dist2(Vec3(10.0, 28.0, -35.0), Origin) == 2109.0;
    } else if section == "contact" {
      assert Dist2(Vec3(4.0, 5.0, -8.0), Vec3(6.0, 0.0, 0.0)) == 93.0;
    } else {
      assert Dist2(Vec3(4.0, 5.0, -16.0), Origin) == 297.0;
    }
  }
}
