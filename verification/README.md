# Field of View — a Dafny model

This project models the core of the Unity "Field of View" component, `FieldOfView`, and the
layer checks of its inspector. Each frame, the component does the following:

- It sweeps a cone of view rays around a deviation angle. The angle comes from a rotation
  curve, or from the direction of the first tracked target.
- It shortens each ray at the obstacles it passes, according to the transparency configured for
  the obstacle's layer.
- It adds refinement rays between base rays whose obstacle counts differ, so that the edges of
  obstacles are found.
- It builds a fan mesh from the ray end points.
- It reduces the targets the rays met to their nearest sighting. It then moves every target
  through its states: spotted, then detected, then lost. Each move is reported as an event.
- It blends a passive skin and an active skin. The border between them is the skin offset. It
  moves outwards while a target is spotted and back inwards during the cool-down.

The modules follow the source:

- `LayerMasks` (`layers.dfy`) covers 32-bit layer masks and the `mask == (mask | 2^layer)`
  layer test. Here `(int) Mathf.Pow(2, 31)` is `int.MinValue`.
- `RayCasting` (`raycast.dfy`) covers `CastViewRay`:
  - the stable `OrderBy` of hits and of the transparency table;
  - the transparency scan;
  - the walk along the hits.
- `EdgeRefinement` (`refinement.dfy`) covers `FindSubsegmentEdges`, the bisection loop, and
  `GenerateSubsegments`, the recursive subdivision.
- `ConeSweep` (`sweep.dfy`) covers `CastFieldOfView`: the base angles and the loop that joins
  base rays and refinement rays.
- `FanMesh` (`mesh.dfy`) covers `BuildFieldOfViewMesh`, over arrays.
- `TargetTracking` (`tracking.dfy`) covers the target bookkeeping of `DetectTargets`:
  - the nearest-sighting reduction;
  - the discovery loop;
  - the loss loop.
- `SkinBlend` (`skin.dfy`) covers `UpdateMeshSkin`.
- `ViewSettings` (`settings.dfy`) covers the clamping setters, the visibility-rule flags and
  `IsViewVisible`.
- `FieldOfViewComponent` (`fieldofview.dfy`) holds the component as a class. Its fields are the
  ones the source updates in place, and its methods change them.
- `ConfigurationEditor` (`editor.dfy`) covers the inspector's checks:
  - `SplitIntoSingleLayers`;
  - the report of layers claimed by two transparency entries;
  - the reset of a negative radius.

Hits, game objects and their layers are values. A hit is given by its distance, an object
identity, a layer index, and whether the ray skips it as part of its owner (`ownHierarchy`).
That flag is exactly the test at `FieldOfView.cs:706`: the hit object is the parent of the
component's object, or the hit object has that same parent. It therefore covers the owner and
the owner's direct children, not deeper descendants. Ray casting
is a parameter (`Caster`): a function from an angle to the ray cast at that angle. Floats are
modelled as reals.

In these places the model keeps the code's behaviour as written:

- The transparency scan goes through the entries in ascending mask order, and the **last**
  matching entry wins. The code's own comment (`FieldOfView.cs:723-724`) gives the reason: an
  "Everything" entry (mask -1) sorts first and provides the default transparency, and a later,
  more particular entry overrides it.
- The fade-out clamps the offset at 0 only, with no upper clamp.
- The fade-in clamps at the longest ray of the frame.
- On the end side, `GenerateSubsegments` does not always halve the sector. Its termination
  rests on the number of 0.1-degree units left, not on halving.
- The last base ray reaches the right edge of the cone only when `viewAngle * viewResolution`
  is a whole number. Otherwise it stops less than one sector short.

The class predicates `FieldOfView.IsVisibilityRuleEnabled` (`FieldOfView.cs:149-166`) and
`FieldOfView.IsViewVisible` (`FieldOfView.cs:401-407`) only pass the component's fields to
`ViewSettings.RuleEnabled` and `ViewSettings.ViewVisible`. The latter gets whether the detected
and spotted lists together are non-empty, and the current skin mode. Their properties are the
ones stated for those functions in the table below.

## Model

| member | source | states |
|---|---|---|
| LayerMasks.EverythingHasEveryLayer | Assets/FieldOfView/Core/Scripts/FieldOfView.cs:329 | The default entry's mask -1 contains every one of the 32 layers |
| LayerMasks.HasLayerOfNonNegative | Assets/FieldOfView/Core/Scripts/FieldOfView.cs:713 | For a non-negative mask, the test that OR-ing in 2^layer leaves the mask unchanged holds exactly when bit `layer` is set |
| RayCasting.SortBySorted | Assets/FieldOfView/Core/Scripts/FieldOfView.cs:688 | `OrderBy` yields a list sorted by the key that is a permutation of its input |
| RayCasting.SortByStable | Assets/FieldOfView/Core/Scripts/FieldOfView.cs:726-727 | `OrderBy` is stable: the elements with equal keys keep their input order |
| RayCasting.LastMatchFacts | Assets/FieldOfView/Core/Scripts/FieldOfView.cs:729-733 | With no matching entry the transparency is 0; otherwise it is the transparency of the last matching entry, and no later entry matches |
| RayCasting.TransparencyOfLargestMatchingMask | Assets/FieldOfView/Core/Scripts/FieldOfView.cs:721-733 | An obstacle's transparency is 0 when no entry's mask has its layer; otherwise it is the transparency of a matching entry whose mask is at least as large as every matching mask |
| RayCasting.TransparencyInRange | Assets/FieldOfView/Core/Scripts/FieldOfView.cs:801-802 | With every entry in 0..100, the resolved transparency is in 0..100 |
| RayCasting.ShortenBounds | Assets/FieldOfView/Core/Scripts/FieldOfView.cs:719-737 | An obstacle at distance d cuts the ray to d + (length − d)·t/100: between d and the old length; d when opaque; unchanged when fully transparent |
| RayCasting.StepBounds | Assets/FieldOfView/Core/Scripts/FieldOfView.cs:706-738 | Processing a reached hit never lengthens the ray and never cuts it below the hit |
| RayCasting.WalkLength | Assets/FieldOfView/Core/Scripts/FieldOfView.cs:699-739 | Walking sorted hits never lengthens the ray, and a first reached hit stays reached |
| RayCasting.WalkFacts | Assets/FieldOfView/Core/Scripts/FieldOfView.cs:699-715 | The counted hits and the recorded targets are exactly the non-owner hits, and the target-layer hits, within the final length |
| RayCasting.ViewRayReach | Assets/FieldOfView/Core/Scripts/FieldOfView.cs:683-747 | A view ray's length lies in [0, viewRadius]; its obstacle count and sightings are exactly those of the distance-sorted hits it reaches |
| RayCasting.NoHitsFullRadius | Assets/FieldOfView/Core/Scripts/FieldOfView.cs:745-746 | With no hits, the ray has the full radius, no counted hit and no target |
| RayCasting.WalkWithoutObstacles | Assets/FieldOfView/Core/Scripts/FieldOfView.cs:718 | Hits on no obstacle layer leave the ray length unchanged |
| RayCasting.OpaqueObstacleStopsRay | Assets/FieldOfView/Core/Scripts/FieldOfView.cs:718-737 | An obstacle whose layer has no transparency entry stops the ray at its distance and counts once |
| RayCasting.HalfTransparentObstacle | Assets/FieldOfView/Core/Scripts/FieldOfView.cs:718-737 | Radius 3, an "Everything" entry at 50 %, an obstacle at 1: the ray length is 2 |
| RayCasting.ScanTransparency | Assets/FieldOfView/Core/Scripts/FieldOfView.cs:721-733 | The scan loop returns the transparency of the last matching entry (`LastMatch`), 0 when none matches |
| RayCasting.CastViewRay | Assets/FieldOfView/Core/Scripts/FieldOfView.cs:683-747 | The imperative walk over the sorted hits, with its break and its skip, computes `ViewRay` |
| EdgeRefinement.BisectFacts | Assets/FieldOfView/Core/Scripts/FieldOfView.cs:662-674 | After n rounds the bracket is 1/2^n of the original and nested in it. Its start edge is the ray at its start angle, with the start's obstacle count; its end edge is the ray at its end angle, with another count. After one round some edge is set, and a side that never moved keeps its original edge |
| EdgeRefinement.FindSubsegmentEdges | Assets/FieldOfView/Core/Scripts/FieldOfView.cs:655-677 | The bisection loop returns the last start-side ray and the last end-side ray, as defined by `SubsegmentEdges` |
| EdgeRefinement.SubsegmentEdgesInside | Assets/FieldOfView/Core/Scripts/FieldOfView.cs:655-677 | For a proper sector, each found edge is the cast at its angle and lies strictly between the two rays. The start edge shares the start's obstacle count and the end edge does not |
| EdgeRefinement.GenerateSubsegments | Assets/FieldOfView/Core/Scripts/FieldOfView.cs:614-647 | Refinement terminates. Its rays are casts at strictly increasing angles strictly inside the sector, and there are none when the obstacle counts agree or the sector is at most 0.1° |
| EdgeRefinement.EndSideShrinks | Assets/FieldOfView/Core/Scripts/FieldOfView.cs:633-636 | The recursion on the end side works on fewer 0.1° units than its parent |
| EdgeRefinement.StartSideAddsNothing | Assets/FieldOfView/Core/Scripts/FieldOfView.cs:623-626 | The recursion on the start side adds no ray, because both its rays have the start's obstacle count |
| ConeSweep.BaseAnglesFacts | Assets/FieldOfView/Core/Scripts/FieldOfView.cs:413-421 | At least two base rays, at increasing angles. The first is at deviation − angle/2; the last is at most deviation + angle/2, less than one sector short, and exactly there iff the sector count is whole |
| ConeSweep.LoopGuard | Assets/FieldOfView/Core/Scripts/FieldOfView.cs:420 | `i <= sectorsCount` holds exactly for the indices of the base rays |
| ConeSweep.Sweep | Assets/FieldOfView/Core/Scripts/FieldOfView.cs:418-429 | The sweep starts and ends with the casts of the first and last base angles and contains every base ray. All its rays are casts at strictly increasing angles |
| ConeSweep.CastFieldOfView | Assets/FieldOfView/Core/Scripts/FieldOfView.cs:412-438 | The loop over the base angles computes `Sweep` of `BaseAngles` |
| FanMesh.FanTrianglesShape | Assets/FieldOfView/Core/Scripts/FieldOfView.cs:474-479 | Triangle k of the fan is (0, k+1, k+2), so every index names one of the vertices |
| FanMesh.UvOfOrigin | Assets/FieldOfView/Core/Scripts/FieldOfView.cs:469-493 | The origin vertex maps to the middle of the texture (0.5, 0.5) |
| FanMesh.UvWithinUnitSquare | Assets/FieldOfView/Core/Scripts/FieldOfView.cs:484-493 | A vertex whose scaled x and z lie within the view radius maps into the unit square |
| FanMesh.BuildFieldOfViewMesh | Assets/FieldOfView/Core/Scripts/FieldOfView.cs:464-494 | The mesh has one vertex more than there are rays: vertex 0 is the origin, vertex i is the end of ray i−1. The triangles are the fan, and every vertex has its texture coordinate |
| TargetTracking.RemoveFirst | Assets/FieldOfView/Core/Scripts/FieldOfView.cs:530 | `List.Remove` leaves a list without the element unchanged and keeps every other element. It removes the element completely from a duplicate-free list |
| TargetTracking.Flatten | Assets/FieldOfView/Core/Scripts/FieldOfView.cs:516-517 | `SelectMany` holds exactly the sightings of all the rays |
| TargetTracking.TargetsOfFlatten | Assets/FieldOfView/Core/Scripts/FieldOfView.cs:516-517 | An object is among the flattened sightings iff some ray sighted it |
| TargetTracking.GroupKeys | Assets/FieldOfView/Core/Scripts/FieldOfView.cs:520-521 | `GroupBy` keys are duplicate-free and are exactly the sighted objects |
| TargetTracking.NearestDistance | Assets/FieldOfView/Core/Scripts/FieldOfView.cs:522 | The first of the group ordered by distance is a sighting of the object, at a distance no larger than any of its sightings |
| TargetTracking.Nearest | Assets/FieldOfView/Core/Scripts/FieldOfView.cs:519-523 | The reduction keeps one sighting per sighted object, in group-key order. Each kept sighting is one of the input's and is at the object's smallest distance |
| TargetTracking.Except | Assets/FieldOfView/Core/Scripts/FieldOfView.cs:550-553 | `Except` is duplicate-free and holds exactly the tracked objects not sighted this frame |
| TargetTracking.DiscoverStepFacts | Assets/FieldOfView/Core/Scripts/FieldOfView.cs:525-548 | One discovery keeps the target lists duplicate-free and disjoint. It spots a new object, detects a spotted object the skin offset has reached, and leaves every other object and its events alone |
| TargetTracking.PromoteFacts | Assets/FieldOfView/Core/Scripts/FieldOfView.cs:528-536 | Moving a spotted object to the detected list keeps the lists well formed. Only that object becomes DETECTED, and only its events gain one TargetDetected |
| TargetTracking.SpotFacts | Assets/FieldOfView/Core/Scripts/FieldOfView.cs:540-547 | Adding an untracked object to the spotted list keeps the lists well formed. Only that object becomes SPOTTED, and only its events gain one TargetSpotted |
| TargetTracking.DiscoverAllFacts | Assets/FieldOfView/Core/Scripts/FieldOfView.cs:525-548 | The discovery loop keeps the lists well formed. It moves each sighted object by its own sighting only and leaves unsighted objects untouched |
| TargetTracking.LoseStepFacts | Assets/FieldOfView/Core/Scripts/FieldOfView.cs:555-566 | Losing an object untracks it and reports it lost; no other object changes |
| TargetTracking.LoseAllFacts | Assets/FieldOfView/Core/Scripts/FieldOfView.cs:555-566 | The loss loop untracks exactly the listed objects, with one lost event each, and keeps the lists well formed |
| TargetTracking.TickPerTarget | Assets/FieldOfView/Core/Scripts/FieldOfView.cs:515-566 | A sighted object moves by its nearest distance against the skin offset, with its spotted or detected event. An unsighted object ends untracked, with a lost event iff it was tracked. The lists stay duplicate-free and disjoint |
| TargetTracking.TickTracksExactlySighted | Assets/FieldOfView/Core/Scripts/FieldOfView.cs:515-566 | After a frame, the tracked objects are exactly those some ray sighted |
| SkinBlend.StepsNonNegative | Assets/FieldOfView/Core/Scripts/FieldOfView.cs:590-600 | The per-frame steps deltaTime·viewRadius/coolDownTime and deltaTime·viewRadius/detectionTime are non-negative when the frame time and the radius are non-negative and the times are positive |
| SkinBlend.NextSkin | Assets/FieldOfView/Core/Scripts/FieldOfView.cs:579-608 | The mode is ACTIVE iff a target is detected, FADE_IN iff only spotted targets exist, PASSIVE iff none exist and the offset is approximately 0, and FADE_OUT otherwise. ACTIVE sets the offset to the longest ray; PASSIVE sets it to 0. FADE_OUT sets it to max(0, offset − fade-out step), and FADE_IN to min(longest ray, offset + fade-in step). The two per-frame steps are parameters, which the component fills from FadeInStep and FadeOutStep |
| SkinBlend.SkinOffsetNonNegative | Assets/FieldOfView/Core/Scripts/FieldOfView.cs:589-597 | With non-negative steps, a non-negative longest ray and a non-negative offset, the offset stays non-negative, and the fade-out never moves the border outwards |
| SkinBlend.IdleFadesOut | Assets/FieldOfView/Core/Scripts/FieldOfView.cs:584-597 | After n idle frames, the offset is at most max(0, offset − n·step) and not negative, where n·step is `Steps(n, step)`. The mode is FADE_OUT or PASSIVE |
| SkinBlend.SpottingFadesIn | Assets/FieldOfView/Core/Scripts/FieldOfView.cs:598-607 | After n ≥ 1 frames with a spotted, undetected target, the offset is min(longest ray, offset + n·step), with n·step as `Steps(n, step)`, and the mode is FADE_IN |
| ViewSettings.ClampInt | Assets/FieldOfView/Core/Scripts/FieldOfView.cs:103-106 | `Mathf.Clamp` returns the point of [min, max] nearest to the value, so a value already in range is stored unchanged |
| ViewSettings.ClampReal | Assets/FieldOfView/Core/Scripts/FieldOfView.cs:108-111 | `Mathf.Clamp` on floats returns the point of [min, max] nearest to the value, so a value already in range is stored unchanged |
| ViewSettings.WithRule | Assets/FieldOfView/Core/Scripts/FieldOfView.cs:127-166 | After setting a rule to a flag, the rule reads back as that flag. Any other rule keeps its flag; for `None`, all three rules read back as the opposite |
| ViewSettings.ViewVisible | Assets/FieldOfView/Core/Scripts/FieldOfView.cs:401-407 | The view is drawn iff `AlwaysVisible` is enabled, or targets are in view and `IfTargetDetected` is enabled, or the skin is fading out and `IfCoolDown` is enabled. With `None` enabled it is never drawn |
| FieldOfViewComponent.MaxLength | Assets/FieldOfView/Core/Scripts/FieldOfView.cs:573 | `Max` over the rays' lengths is the length of some ray and at least every ray's length |
| FieldOfViewComponent.FieldOfView.constructor | Assets/FieldOfView/Core/Scripts/FieldOfView.cs:317-332 | The default settings: radius 3, angle 45, resolution 0.75, always visible, detection 2 s, cool-down 5 s, accuracy 5, one "Everything" entry at 0 %, skin mode NONE, no targets |
| FieldOfViewComponent.FieldOfView.PauseRotation | Assets/FieldOfView/Core/Scripts/FieldOfView.cs:80-82 | Sets the pause flag and changes nothing else |
| FieldOfViewComponent.FieldOfView.ResumeRotation | Assets/FieldOfView/Core/Scripts/FieldOfView.cs:87-89 | Clears the pause flag and changes nothing else |
| FieldOfViewComponent.FieldOfView.GetAllVisibleTargets | Assets/FieldOfView/Core/Scripts/FieldOfView.cs:94-96 | The spotted targets followed by the detected ones, without duplicates when the state is valid |
| FieldOfViewComponent.FieldOfView.SetViewRadius | Assets/FieldOfView/Core/Scripts/FieldOfView.cs:98-101 | The radius is stored as given; nothing else changes |
| FieldOfViewComponent.FieldOfView.SetViewAngle | Assets/FieldOfView/Core/Scripts/FieldOfView.cs:103-106 | The angle is stored clamped to [1, 360]; nothing else changes |
| FieldOfViewComponent.FieldOfView.SetViewResolution | Assets/FieldOfView/Core/Scripts/FieldOfView.cs:108-111 | The resolution is stored clamped to [0.5, 2.0]; nothing else changes |
| FieldOfViewComponent.FieldOfView.SetCurveAccuracy | Assets/FieldOfView/Core/Scripts/FieldOfView.cs:193-196 | The accuracy is stored clamped to [2, 10]; nothing else changes |
| FieldOfViewComponent.FieldOfView.SetVisibilityRule | Assets/FieldOfView/Core/Scripts/FieldOfView.cs:127-147 | The three flags become `WithRule` of the old flags; nothing else changes |
| FieldOfViewComponent.FieldOfView.EnableVisibilityRule | Assets/FieldOfView/Core/Scripts/FieldOfView.cs:116-118 | Afterwards the rule reads back as enabled |
| FieldOfViewComponent.FieldOfView.DisableVisibilityRule | Assets/FieldOfView/Core/Scripts/FieldOfView.cs:123-125 | Afterwards the rule reads back as disabled |
| FieldOfViewComponent.FieldOfView.GetDeviationAngle | Assets/FieldOfView/Core/Scripts/FieldOfView.cs:440-462 | With tracked targets, the angle to the first of them. Without targets: 0 when paused; otherwise the cool-down curve while fading out, else the default curve |
| FieldOfViewComponent.FieldOfView.SetSkinMode | Assets/FieldOfView/Core/Scripts/FieldOfView.cs:360-377 | A new mode is stored and sent to the material once. Setting the current mode again changes nothing |
| FieldOfViewComponent.FieldOfView.Start | Assets/FieldOfView/Core/Scripts/FieldOfView.cs:347-354 | The component starts in the PASSIVE skin mode |
| FieldOfViewComponent.FieldOfView.UpdateMeshSkin | Assets/FieldOfView/Core/Scripts/FieldOfView.cs:579-608 | The skin offset and mode become `NextSkin` of the old skin and the sizes of the target lists; nothing else changes |
| FieldOfViewComponent.FieldOfView.DiscoverTargets | Assets/FieldOfView/Core/Scripts/FieldOfView.cs:525-548 | The discovery loop over the reduced sightings updates the target lists and events as `DiscoverAll` does |
| FieldOfViewComponent.FieldOfView.LoseTargets | Assets/FieldOfView/Core/Scripts/FieldOfView.cs:550-566 | The loss loop updates the target lists and events as `LoseAll` does |
| FieldOfViewComponent.FieldOfView.DetectTargets | Assets/FieldOfView/Core/Scripts/FieldOfView.cs:515-574 | The target state becomes `Tick` of the rays at the old skin offset and stays valid. The skin then follows `NextSkin` with the longest ray of the frame |
| ConfigurationEditor.SplitIntoSingleLayers | Assets/FieldOfView/Core/Scripts/Editor/FieldOfViewConfigurationEditor.cs:355-378 | Returns `SingleLayers`: [-1] for "Everything", nothing for 0 or another negative mask, else the set bits (see `SingleLayersOfPositive`) |
| ConfigurationEditor.SingleLayersOfPositive | Assets/FieldOfView/Core/Scripts/Editor/FieldOfViewConfigurationEditor.cs:369-375 | For a positive mask, the layers come in strictly ascending order and are non-negative. A layer is listed iff its bit is set |
| ConfigurationEditor.SingleLayersTokens | Assets/FieldOfView/Core/Scripts/Editor/FieldOfViewConfigurationEditor.cs:358-362 | The token -1 appears only for the "Everything" mask; every other token is a layer index |
| ConfigurationEditor.SplitLoopExitsBelowLayer30 | Assets/FieldOfView/Core/Scripts/Editor/FieldOfViewConfigurationEditor.cs:369-375 | The loop as written, with its 32-bit shift, exits for every positive mask below 2^30 |
| ConfigurationEditor.SplitHangsWithLayer30 | Assets/FieldOfView/Core/Scripts/Editor/FieldOfViewConfigurationEditor.cs:369-375 | The loop as written never exits for a mask in [2^30, 2^31), whatever the step bound |
| ConfigurationEditor.CollectConfiguredLayers | Assets/FieldOfView/Core/Scripts/Editor/FieldOfViewConfigurationEditor.cs:233-241 | The loop collects the single-layer tokens of every entry in entry order (`ConfiguredLayers`) |
| ConfigurationEditor.AmbiguousLayersExact | Assets/FieldOfView/Core/Scripts/Editor/FieldOfViewConfigurationEditor.cs:259-263 | A layer is reported iff it occurs at least twice among the collected tokens, and it is reported once |
| ConfigurationEditor.AmbiguousLayersAreSharedTokens | Assets/FieldOfView/Core/Scripts/Editor/FieldOfViewConfigurationEditor.cs:233-263 | A layer is reported iff two different entries claim it, and each reported layer appears once |
| ConfigurationEditor.EverythingWithOneOverrideIsNotAmbiguous | Assets/FieldOfView/Core/Scripts/Editor/FieldOfViewConfigurationEditor.cs:259-263 | An "Everything" entry plus one other entry is never reported as ambiguous |
| ConfigurationEditor.ResetNegativeRadius | Assets/FieldOfView/Core/Scripts/Editor/FieldOfViewConfigurationEditor.cs:153-155 | The inspector keeps a non-negative radius and resets a negative one to 0 |

## Left out

- Unity's physics query (`Physics.RaycastAll`) is not modelled. The ray takes the reported hits
  as an input sequence.
- The owner test at `FieldOfView.cs:706` reads `transform.parent.gameObject`. On a component
  whose object has no parent, it throws a `NullReferenceException` at the first hit the ray
  reaches. The model has no transforms: it takes the test's outcome as each hit's
  `ownHierarchy` flag, so it does not model that exception.
- The direction vectors and world-space end points (`Mathf.Sin`/`Cos`, `TransformDirection`,
  `InverseTransformPoint`) are not modelled. `BuildFieldOfViewMesh` takes the end points already
  in local space.
- `GetTargetAngle` is a parameter of `GetDeviationAngle`, because its `Atan2` of a transform
  position is not modelled.
- `AnimationCurve.Evaluate(Time.time)` is a parameter of `GetDeviationAngle`, because the curves
  are Unity objects.
- `Time.deltaTime` is a parameter of `UpdateMeshSkin`.
- `LookAt`, `DisableLookAtScheduled` and `DisableLookAt` move the transform and use a coroutine.
  They are not modelled. Neither is the call to `DisableLookAt` at the end of `DetectTargets`.
- `Update` and `LateUpdate` only sequence the modelled steps per frame and clear the mesh. The
  sequencing is not modelled as its own method.
- The material calls of `SetSkinMode` are not modelled (keywords, start time, fade speeds, the
  `_SkinsOffset` float). Each change of mode is recorded in the `shaderModes` trace instead.
- `Reset` and `SetupDefaultSkinMaterial` (renderer setup) are not modelled. The
  `SetupDefaultSettings` defaults are the constructor.
- The mesh object's `Clear`, `RecalculateBounds` and `RecalculateNormals` are not modelled.
- `Debug.DrawLine` for sector edges and the `showSectorEdges` flag's drawing are left out.
- The rest of the inspector GUI is left out, as are the skin editor, the skin material builder
  and the demo scripts.
- The plain accessors `TargetsLayer`, `DefaultRotation`, `CoolDownRotation`, `DetectionTime` and
  `CoolDownTime` only store or return a field. The model reads and writes those fields directly.
- Single-precision rounding is not modelled: floats are reals.
- `Mathf.Approximately(x, 0)` is the explicit test |x| < 8 × 1.401298e-45.
- `(int) Mathf.Log(currentLayer, 2)` is taken to be the exact bit index.
- `(int) Mathf.Pow(2, 31)` is taken as `int.MinValue`, the x86 result of the out-of-range cast,
  so a hit on layer 31 never matches a transparency entry.
- `Dictionary.Add` throws when one ray hits the same target object twice. This is not modelled:
  the ray then records two sightings of it, and the nearest one is kept later.
- `IsVisibilityRuleEnabled` logs an error for enum values outside the four named rules. Such
  values do not exist in the model.
- FieldOfViewComponent.FieldOfView.UpdateMeshSkin: requires non-zero detection and cool-down
  times. The float division by zero in the source, which gives infinity, is not modelled.
- FieldOfViewComponent.FieldOfView.DetectTargets: requires the same non-zero times and at least
  one ray. LINQ `Max` throws on no rays, and `CastFieldOfView` always casts at least two.
- FanMesh.BuildFieldOfViewMesh: requires at least one end point and a non-zero radius. With no
  end point the source allocates a negative-size array, and a zero radius divides by zero.
- ConeSweep.CastFieldOfView: requires a positive view angle. The angle setter clamps to at least
  1.
- EdgeRefinement.GenerateSubsegments: requires the start ray's angle to be at most the end ray's
  angle. The sweep only calls it that way.
- RayCasting.ViewRayReach: assumes every transparency is in 0..100, which the inspector's
  `[Range(0, 100)]` enforces. The ray function itself takes any value.
- SkinBlend.SkinOffsetNonNegative: assumes non-negative per-frame steps and a non-negative
  longest ray. The steps are non-negative only for a non-negative radius and frame time and
  positive times (`SkinBlend.StepsNonNegative`), and the radius setter does not clamp.
- SkinBlend.StepsNonNegative: assumes a non-negative frame time and radius and a positive time.
  With a zero time the source's float step is infinite, which is not modelled.
- ConfigurationEditor.SplitIntoSingleLayers: models the evidently intended loop, which ends for
  every mask. The loop as written is modelled separately, as listed under Findings.

## Findings

| source | as written | input that shows it | evidently intended | confidence | as-written member | corrected member |
|---|---|---|---|---|---|---|
| Assets/FieldOfView/Core/Scripts/Editor/FieldOfViewConfigurationEditor.cs:369-375 | `currentLayer` is a 32-bit `int` shifted left while `currentLayer <= layersMask`. After bit 30 the shift wraps it to `int.MinValue`, then to 0, and 0 stays at most the mask forever | layersMask = 0x40000000 (layer 30 selected, or any mask with layer 30 and not layer 31) | stop after the highest set bit and return the set bits in ascending order | high (not executed) | ConfigurationEditor.SplitHangsWithLayer30 | ConfigurationEditor.SplitIntoSingleLayers |
