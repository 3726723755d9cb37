/**
 * The per-section camera targets: where the camera should sit, and the point
 * the orbit controls should look at. Both tables are keyed by the section id;
 * a key missing from a table falls back to the `home` entry.
 */
module CameraTables {
  import opened Vectors
  import opened Sections

  const CameraPositions: map<string, Vec3> := map[
    "home" := Vec3(4.0, 5.0, -16.0),
    "projects" := Vec3(4.0, 5.0, -16.0),
    "lostfocus" := Vec3(10.0, 28.0, -35.0),
    "contact" := Vec3(4.0, 5.0, -8.0)
  ]

  const CameraTargets: map<string, Vec3> := map[
    "home" := Origin,
    "projects" := Origin,
    "lostfocus" := Origin,
    "contact" := Vec3(6.0, 0.0, 0.0)
  ]

  /** Both tables hold an entry for exactly the navigation's section ids, home included. */
  lemma TablesCoverSections()
    ensures "home" in CameraPositions && "home" in CameraTargets
    ensures forall name :: name in CameraPositions <==> Parse(name).Some?
    ensures forall name :: name in CameraTargets <==> Parse(name).Some?
  {
  }

  /** `CAMERA_POSITIONS[section] || CAMERA_POSITIONS.home` */
  function PositionFor(section: string): (r: Vec3)
    ensures Parse(section).Some? ==> r == CameraPositions[Id(Parse(section).value)]
    ensures Parse(section).None? ==> r == CameraPositions["home"] == Vec3(4.0, 5.0, -16.0)
  {
    if section in CameraPositions then CameraPositions[section] else CameraPositions["home"]
  }

  /** `CAMERA_TARGETS[section] || CAMERA_TARGETS.home` */
  function LookTargetFor(section: string): (r: Vec3)
    ensures Parse(section).Some? ==> r == CameraTargets[Id(Parse(section).value)]
    ensures Parse(section).None? ==> r == CameraTargets["home"] == Origin
  {
    if section in CameraTargets then CameraTargets[section] else CameraTargets["home"]
  }

  /** A section id reads its own entry of each table; any other string reads the `home` entry. */
  lemma LookupFallsBackToHome(section: string)
    ensures Parse(section).Some? ==> PositionFor(section) == CameraPositions[Id(Parse(section).value)]
    ensures Parse(section).Some? ==> LookTargetFor(section) == CameraTargets[Id(Parse(section).value)]
    ensures Parse(section).None? ==> PositionFor(section) == CameraPositions["home"] == Vec3(4.0, 5.0, -16.0)
    ensures Parse(section).None? ==> LookTargetFor(section) == CameraTargets["home"] == Origin
  {
  }

  /** An unrecognised section resolves exactly as `home` does. */
  lemma UnknownSectionIsHome(section: string)
    requires Parse(section).None?
    ensures PositionFor(section) == PositionFor("home") == Vec3(4.0, 5.0, -16.0)
    ensures LookTargetFor(section) == LookTargetFor("home") == Origin
  {
  }

  /** Every listed section resolves to its own entry. */
  lemma KnownSectionTargets()
    ensures PositionFor("home") == Vec3(4.0, 5.0, -16.0) && LookTargetFor("home") == Origin
    ensures PositionFor("projects") == Vec3(4.0, 5.0, -16.0) && LookTargetFor("projects") == Origin
    ensures PositionFor("lostfocus") == Vec3(10.0, 28.0, -35.0) && LookTargetFor("lostfocus") == Origin
    ensures PositionFor("contact") == Vec3(4.0, 5.0, -8.0) && LookTargetFor("contact") == Vec3(6.0, 0.0, 0.0)
  {
  }
}
