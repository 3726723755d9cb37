# Camera choreography of the 3D portfolio scene

This project models the part of the portfolio's scene (`src/App.jsx`) that
decides where the camera goes. It covers four pieces:

- **The section tables.** `CAMERA_POSITIONS` and `CAMERA_TARGETS` give, for each
  navigation section (`home`, `projects`, `lostfocus`, `contact`), where the camera
  should sit and where the orbit controls should look. A section missing from a
  table reads that table's `home` entry.
- **The camera controller.** Its per-frame callback does five things in order:
  1. It clears the arrival flag when the section changed.
  2. In `projects` it latches arrival and leaves the camera to the orbit controls.
  3. Once arrived, it does nothing.
  4. Otherwise it lerps the camera toward the section's position by a fixed
     fraction (0.05 in `contact`, 0.03 elsewhere). It copies the camera position
     into the orbit controls and lerps their target toward the section's look
     target by the same fraction.
  5. It latches arrival once the camera is within 0.1 of the position.
- **The orbit-control settings.** The section decides whether the user may
  rotate, zoom and pan, and how fast auto-rotation runs.
- **The particle shader's clock.** The `uTime` uniform starts at 0 and grows by
  each frame's `delta`.

Module layout:

- `Vectors`: three.js `Vector3` over the reals, with `lerp` and squared `distanceTo`.
- `Sections`: the navigation's section ids.
- `CameraTables`: the two lookup tables.
- `CameraChoreography`: the frame as a pure function `FrameStep`. The class
  `CameraController` does the same frame in place on its fields.
- `OrbitSettings`: the controls' props.
- `ParticleClock`: the `uTime` accumulator, as the class `ShaderClock`.

Properties proved about many frames:

- While the camera travels, its offset from the target, and (with controls)
  the orbit target's offset from the look target, are the starting offsets
  scaled by (1 − speed)^k, counted from the frame on which the section changed.
  Without controls the orbit target never moves.
- From any state in any section, the camera arrives within an explicit number of
  frames, for frames in which `controls.update()` (src/App.jsx:55) changes nothing.
- While the camera travels with controls, the squared distances of the camera
  and of the orbit target to their targets keep the ratio they started with.

One might expect the look target to end at the origin after a `home` →
`contact` → `home` round. The code does not guarantee this:

- Arrival is tested on the camera position only.
- The camera position and the look target move at the same rate but start at
  different distances.
- An exact lerp never lands exactly on its target.

On a round made of the callback's frames alone, the target arrives only close
to the origin: its squared distance at arrival is at most 0.01 times the ratio
of the target's to the camera's squared distance when the section changed
(`OffsetsShrinkTogether`). If something
else leaves the camera already on the home position with the target elsewhere
(for example the orbit controls' own `update()` or user input, which this model
does not follow), the next frame latches arrival and the look target stays off
the origin until the section changes (`StaysArrived`). The model follows the code and proves this
(`LookTargetCanStopShort`, and `ContactToHomeStopsShort` on a constructed state
with the target still on the contact look target).

## Model

| member | source | states |
|---|---|---|
| Sections.Parse | src/components/Navbar.jsx:1-6 | a recognised string is the id of the section returned; an unrecognised one is the id of no section |
| Sections.ParseId | src/components/Navbar.jsx:1-6 | distinct sections have distinct ids and each id parses back to its section |
| Sections.NavIdsAreSections | src/components/Navbar.jsx:1-6 | the four navigation ids are exactly the sections |
| CameraTables.PositionFor | src/App.jsx:29 | a section id reads its own entry of `CAMERA_POSITIONS`; any other string reads the `home` entry (4, 5, −16) |
| CameraTables.LookTargetFor | src/App.jsx:30 | a section id reads its own entry of `CAMERA_TARGETS`; any other string reads the `home` entry, the origin |
| CameraTables.TablesCoverSections | src/App.jsx:13-25 | both tables have a `home` entry, and their keys are exactly the section ids |
| CameraTables.LookupFallsBackToHome | src/App.jsx:29-30 | a section id reads its own entry in both tables; any other string reads the `home` entries (4, 5, −16) and the origin |
| CameraTables.UnknownSectionIsHome | src/App.jsx:29-30 | an unrecognised section resolves exactly as `home` does |
| CameraTables.KnownSectionTargets | src/App.jsx:13-25 | the position and look target of each of the four sections |
| Vectors.Norm2 | src/App.jsx:58 | a squared length is never negative, and is positive off the origin |
| Vectors.Dist2 | src/App.jsx:58 | a squared distance is never negative, and is positive between distinct points |
| Vectors.Lerp | src/App.jsx:49 | `Vector3.lerp`; no contract of its own, pinned by `LerpOffsets`, `LerpDistance` and `LerpNoOvershoot` |
| Vectors.LerpOffsets | src/App.jsx:49 | after a lerp by s, the remaining offset is (1 − s) times the old one and the step is s times the full offset |
| Vectors.LerpDistance | src/App.jsx:49 | for 0 < s < 1 the squared distance to the target is multiplied by (1 − s)², so it strictly decreases without reaching zero; from the target the point stays put |
| Vectors.LerpNoOvershoot | src/App.jsx:49 | for 0 ≤ s ≤ 1 no coordinate passes the target's |
| Vectors.Pow | src/App.jsx:48-49 | helper for `MotionScales`: the k-frame factor (1 − speed)^k; powers of a factor in (0, 1] stay in (0, 1] |
| CameraChoreography.ArrivalTestAgrees | src/App.jsx:58 | for a non-negative distance r, the test r < 0.1 holds exactly when r · r is below the squared threshold 0.01 |
| CameraChoreography.SpeedFor | src/App.jsx:48 | the speed is 0.05 in `contact` and 0.03 everywhere else, always strictly between 0 and 1 |
| CameraChoreography.SyncSection | src/App.jsx:35-38 | a section change clears arrival and records the section; otherwise arrival is kept; nothing else changes |
| CameraChoreography.Approach | src/App.jsx:48-60 | the moving part of a frame keeps the section ref and the controls' presence, copies the camera into the controls when present, leaves both controls fields alone when absent, and never clears arrival; the lerps and the arrival test are pinned by `MovingFrameApproaches`, `MovingFrameSyncsControls` and `MovingFrameArrival` |
| CameraChoreography.FrameStep | src/App.jsx:34-61 | every frame records the current section and leaves the presence of the controls alone |
| CameraChoreography.Run | src/App.jsx:34-61 | any positive number of frames in one section leaves that section recorded |
| CameraChoreography.SectionChangeResumesMotion | src/App.jsx:35-49 | on a section change outside `projects`, the camera starts lerping toward the new section's position on that same frame |
| CameraChoreography.ProjectsLeavesCameraAlone | src/App.jsx:40-44 | a `projects` frame sets arrival and the section and changes nothing else |
| CameraChoreography.ArrivedFrameIsNoOp | src/App.jsx:35-46 | once arrived, a frame in the same section changes nothing |
| CameraChoreography.MovingFrameApproaches | src/App.jsx:48-49 | on a moving frame the camera lerps by the section's speed; its offset scales by (1 − speed) and its squared distance by (1 − speed)²; it strictly decreases unless already there; no overshoot |
| CameraChoreography.MovingFrameSyncsControls | src/App.jsx:52-56 | with controls, their camera equals the new camera position and their target lerps toward the look target by the same speed; without controls, neither changes |
| CameraChoreography.MovingFrameArrival | src/App.jsx:58-60 | a moving frame sets arrival exactly when the new squared distance is below 0.01 |
| CameraChoreography.FrameKeepsSynced | src/App.jsx:52-53 | every frame keeps the controls' camera equal to the camera when controls are present |
| CameraChoreography.StaysArrived | src/App.jsx:46 | once arrived in the current section, any number of further frames changes nothing |
| CameraChoreography.MotionScales | src/App.jsx:35-54 | while no frame is idle (outside `projects`, not yet arrived), after k frames, starting from a section change or mid-travel, the camera's offset and, with controls, the target's offset are the starting offsets times (1 − speed)^k; without controls the orbit target never moves |
| CameraChoreography.MotionStep | src/App.jsx:35-54 | one non-idle frame, section change included, multiplies both offsets by (1 − speed) |
| CameraChoreography.OffsetsShrinkTogether | src/App.jsx:35-60 | from any start, the state in which the section changed included, while travelling with controls, the camera's and the target's squared distances keep their starting ratio; once the camera is within the arrival radius, the target's squared distance is at most 0.01 times that ratio |
| CameraChoreography.Progress | src/App.jsx:48-60 | helper for the arrival bound: a positive per-frame amount of squared distance, 0.01 · (1 − (1 − speed)²) |
| CameraChoreography.FrameMakesProgress | src/App.jsx:48-60 | a frame that moves without arriving cuts the squared distance by at least `Progress` |
| CameraChoreography.ArrivesWithin | src/App.jsx:34-61 | from a squared distance of at most n · `Progress`, arrival comes within n + 1 frames |
| CameraChoreography.FirstFrameApproaches | src/App.jsx:35-49 | a first frame that does not arrive records the section and does not move the camera away |
| CameraChoreography.DivBound | src/App.jsx:58 | helper for the arrival bound: the frame count covers the whole squared distance at `Progress` per frame |
| CameraChoreography.EventuallyArrives | src/App.jsx:34-61 | from any state, in any section, arrival is reached within `FrameBound` frames (with `controls.update()` changing nothing) |
| CameraChoreography.InitialState | src/App.jsx:170-188 | the mounted camera sits on the `home` position looking at the `home` target, not arrived, with `home` recorded and the controls' camera equal to the camera |
| CameraChoreography.InitialHomeArrivesAtOnce | src/App.jsx:188 | starting from the mounted camera at (4, 5, −16) in `home`, the first frame arrives without moving the camera |
| CameraChoreography.LookTargetCanStopShort | src/App.jsx:52-60 | when the camera is already on the section's position and the orbit target is not on the look target, one frame latches arrival with the target still off the look target |
| CameraChoreography.ContactToHomeStopsShort | src/App.jsx:29-60 | from a constructed state on the home position with the target still at the contact look target, a `home` frame arrives while the target is not at the origin |
| CameraChoreography.LerpNeverLands | src/App.jsx:49 | a lerp with 0 < s < 1 never lands exactly on a target it did not start on |
| CameraChoreography.CameraController.constructor | src/App.jsx:27-33 | arrival starts false and the first render's section is recorded; the controls' camera is the camera |
| CameraChoreography.CameraController.Frame | src/App.jsx:34-61 | the fields after the callback are `FrameStep` of the fields before. `projects` moves nothing; an arrived frame in the same section changes nothing; the controls' camera stays in step |
| CameraChoreography.CameraController.Move | src/App.jsx:48-60 | the fields after the moving part of the callback are `Approach` of the fields before |
| OrbitSettings.IsLostFocus | src/App.jsx:177 | `section === 'lostfocus'`; no contract of its own, used by `OrbitPropsFor` |
| OrbitSettings.IsContact | src/App.jsx:178 | `section === 'contact'`; no contract of its own, used by `OrbitPropsFor` |
| OrbitSettings.OrbitPropsFor | src/App.jsx:230-241 | the props of `<OrbitControls>`; no contract of its own, pinned by `ContactFreezesInput`, `LostFocusRotatesSlower`, `SectionIndependentProps` and `OtherSectionsActLikeHome` |
| OrbitSettings.ContactFreezesInput | src/App.jsx:238-240 | rotate, zoom and pan are enabled exactly outside `contact`, and always together |
| OrbitSettings.LostFocusRotatesSlower | src/App.jsx:234-235 | auto-rotation is on in every section; its speed is 0.1 in `lostfocus` and 0.3 everywhere else, so it is slower than on `home` exactly in `lostfocus`, a third as fast |
| OrbitSettings.SectionIndependentProps | src/App.jsx:232-237 | damping 0.05, auto-rotation and the distance range 5 to 50 are the same in every section |
| OrbitSettings.OtherSectionsActLikeHome | src/App.jsx:230-241 | outside `contact` and `lostfocus`, the controls get exactly the `home` props |
| OrbitSettings.SectionPosesWithinDistanceRange | src/App.jsx:236-237 | every section's camera position lies within the controls' distance range of that section's look target |
| ParticleClock.Elapsed | src/App.jsx:126-128 | the running sum `uTime` holds; no contract of its own, pinned by `ElapsedAppend`, `ElapsedSign` and `ShaderClock.Tick` |
| ParticleClock.ElapsedAppend | src/App.jsx:126-128 | the time over two runs of frames is the sum of the two times |
| ParticleClock.ElapsedSign | src/App.jsx:126-128 | non-negative frame durations give a non-negative time; positive ones give a positive time |
| ParticleClock.ClockIsMonotone | src/App.jsx:126-128 | read at two frames, the clock never runs backwards, and it strictly advances when every frame takes time |
| ParticleClock.ShaderClock.constructor | src/App.jsx:86 | the clock starts at 0 with no frames |
| ParticleClock.ShaderClock.Tick | src/App.jsx:126-128 | the clock grows by exactly `delta`, strictly when `delta` is positive, and always equals the sum of all frame durations |

## Left out

- Floating point: vectors and speeds are exact reals. Rounding in `lerp`, in `distanceTo` and in the `uTime` sum is not modelled.
- Squared distance: `distanceTo(p) < 0.1` is modelled as squared distance below 0.01. The two agree on reals (`ArrivalTestAgrees`).
- CameraChoreography.CameraController.Move: `controls.update()` (src/App.jsx:55) is treated as changing nothing. In the running scene it applies damping and auto-rotation to the same camera object before the arrival test reads its position.
- Aliasing: the orbit controls' camera is the scene camera. The model keeps two position fields and proves that the copy keeps them equal.
- The controls ref is fixed when the controller is built: `hasControls` never changes. The ref being filled in after the first frames is not modelled.
- OrbitControls internals are not modelled: input handling, damping, auto-rotation and distance clamping. Only the props passed to the controls are.
- JavaScript inherited object keys are not modelled: a section string such as `toString` would find a prototype value. Sections only come from the navigation ids.
- The particle field is not modelled: random positions and seeds, geometry and the shader programs. Only the `uTime` accumulator is.
- Rendering is not modelled: lights, environment, post-processing effects, the canvas setup and all JSX/CSS overlays (blur, hero text, clock display).
- The loader, the contact form, the navigation's rendering and `src/lib/SceneInit.js` are not part of this model.
- Time and frames come from the renderer: frame durations are parameters, and sections are passed in per frame.
