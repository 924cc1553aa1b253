/** The `FieldOfView` component: its configuration, the two target lists, the skin state and the
    per-frame operations that update them. Events are appended to `events` instead of being
    raised; the shader keywords the skin switches to are appended to `shaderModes`. */
module FieldOfViewComponent {
  import opened RayCasting
  import opened TargetTracking
  import opened SkinBlend
  import opened ViewSettings

  /** Every field of the component, as one value, so that an operation can say what it changes. */
  datatype ComponentState = ComponentState(
    viewRadius: real, viewAngle: int, viewResolution: real,
    flags: VisibilityFlags, targetsLayer: int, detectionTime: real, coolDownTime: real,
    layersConfiguration: seq<LayersEntry>, curveAccuracy: int, showSectorEdges: bool,
    currentSkinMode: SkinMode, skinsOffset: real,
    spottedTargets: seq<ObjectId>, detectedTargets: seq<ObjectId>, isRotationPaused: bool,
    events: seq<TargetEvent>, shaderModes: seq<SkinMode>)

  /** `fieldOfViewData.Max(ray => ray.Length)`: the longest ray of the frame. */
  function MaxLength(rays: seq<RayCastResult>): (m: real)
    requires |rays| >= 1
    ensures exists i :: 0 <= i < |rays| && rays[i].length == m
    ensures forall i :: 0 <= i < |rays| ==> rays[i].length <= m
  {
    if |rays| == 1 then rays[0].length
    else
      var init := rays[..|rays| - 1];
      var m := MaxLength(init);
      assert forall i :: 0 <= i < |init| ==> init[i] == rays[i];
      if rays[|rays| - 1].length > m then rays[|rays| - 1].length else m
  }

  class FieldOfView {
    var viewRadius: real
    var viewAngle: int
    var viewResolution: real
    var alwaysVisible: bool
    var visibleIfTargetDetected: bool
    var visibleDuringCoolDown: bool
    var targetsLayer: int
    var detectionTime: real
    var coolDownTime: real
    var layersConfiguration: seq<LayersEntry>
    var curveAccuracy: int
    var showSectorEdges: bool
    var currentSkinMode: SkinMode
    var skinsOffset: real
    var spottedTargets: seq<ObjectId>
    var detectedTargets: seq<ObjectId>
    var isRotationPaused: bool
    var events: seq<TargetEvent>
    var shaderModes: seq<SkinMode>

    function State(): ComponentState
      reads this
    {
      ComponentState(viewRadius, viewAngle, viewResolution, Flags(), targetsLayer, detectionTime, coolDownTime,
                     layersConfiguration, curveAccuracy, showSectorEdges, currentSkinMode, skinsOffset,
                     spottedTargets, detectedTargets, isRotationPaused, events, shaderModes)
    }

    function Flags(): VisibilityFlags
      reads this
    {
      VisibilityFlags(alwaysVisible, visibleIfTargetDetected, visibleDuringCoolDown)
    }

    function Targets(): Tracking
      reads this
    {
      Tracking(spottedTargets, detectedTargets, events)
    }

    /** The two target lists never repeat a target and never share one. */
    predicate Valid()
      reads this
    {
      WellFormed(Targets())
    }

    /** `SetupDefaultSettings` on a new component: radius 3, angle 45, resolution 0.75, always
        visible, detection in 2 and cool-down in 5 time units, accuracy 5, every layer opaque. */
    constructor()
      ensures Valid()
      ensures viewRadius == 3.0 && viewAngle == 45 && viewResolution == 0.75
      ensures Flags() == VisibilityFlags(true, false, false)
      ensures detectionTime == 2.0 && coolDownTime == 5.0 && curveAccuracy == 5
      ensures layersConfiguration == [LayersEntry(-1, 0)] && currentSkinMode == NoneMode && showSectorEdges
      ensures targetsLayer == 0 && skinsOffset == 0.0 && !isRotationPaused
      ensures spottedTargets == [] && detectedTargets == [] && events == [] && shaderModes == []
    {
      viewRadius := 3.0;
      viewAngle := 45;
      viewResolution := 0.75;
      alwaysVisible := true;
      visibleIfTargetDetected := false;
      visibleDuringCoolDown := false;
      targetsLayer := 0;
      detectionTime := 2.0;
      coolDownTime := 5.0;
      curveAccuracy := 5;
      layersConfiguration := [LayersEntry(-1, 0)];
      currentSkinMode := NoneMode;
      showSectorEdges := true;
      skinsOffset := 0.0;
      spottedTargets := [];
      detectedTargets := [];
      isRotationPaused := false;
      events := [];
      shaderModes := [];
    }

    method PauseRotation()
      modifies this
      ensures State() == old(State()).(isRotationPaused := true)
    {
      isRotationPaused := true;
    }

    method ResumeRotation()
      modifies this
      ensures State() == old(State()).(isRotationPaused := false)
    {
      isRotationPaused := false;
    }

    /** Both kinds of visible target, spotted ones first; in a valid component no target twice. */
    method GetAllVisibleTargets() returns (targets: seq<ObjectId>)
      ensures targets == spottedTargets + detectedTargets
      ensures Valid() ==> NoDup(targets)
    {
      targets := spottedTargets + detectedTargets;
      if Valid() {
        forall i, j | 0 <= i < j < |targets| ensures targets[i] != targets[j] {
          if j < |spottedTargets| {
            assert targets[i] == spottedTargets[i] && targets[j] == spottedTargets[j];
          } else if |spottedTargets| <= i {
            assert targets[i] == detectedTargets[i - |spottedTargets|];
            assert targets[j] == detectedTargets[j - |spottedTargets|];
          } else {
            assert targets[i] in spottedTargets && targets[j] in detectedTargets;
          }
        }
      }
    }

    /** The radius is stored as given. */
    method SetViewRadius(value: real)
      modifies this
      ensures State() == old(State()).(viewRadius := value)
    {
      viewRadius := value;
    }

    method SetViewAngle(value: int)
      modifies this
      ensures State() == old(State()).(viewAngle := ClampInt(value, MinAngle, MaxAngle))
      ensures MinAngle <= viewAngle <= MaxAngle
    {
      viewAngle := ClampInt(value, MinAngle, MaxAngle);
    }

    method SetViewResolution(value: real)
      modifies this
      ensures State() == old(State()).(viewResolution := ClampReal(value, MinResolution, MaxResolution))
      ensures MinResolution <= viewResolution <= MaxResolution
    {
      viewResolution := ClampReal(value, MinResolution, MaxResolution);
    }

    method SetCurveAccuracy(value: int)
      modifies this
      ensures State() == old(State()).(curveAccuracy := ClampInt(value, MinMeshAccuracy, MaxMeshAccuracy))
      ensures MinMeshAccuracy <= curveAccuracy <= MaxMeshAccuracy
    {
      curveAccuracy := ClampInt(value, MinMeshAccuracy, MaxMeshAccuracy);
    }

    /** Writes the flags of `rule`; nothing else changes. */
    method SetVisibilityRule(rule: VisibilityRule, flag: bool)
      modifies this
      ensures State() == old(State()).(flags := WithRule(old(Flags()), rule, flag))
    {
      match rule
      case None =>
        alwaysVisible := !flag;
        visibleIfTargetDetected := !flag;
        visibleDuringCoolDown := !flag;
      case AlwaysVisible =>
        alwaysVisible := flag;
      case IfTargetDetected =>
        visibleIfTargetDetected := flag;
      case IfCoolDown =>
        visibleDuringCoolDown := flag;
    }

    /** Afterwards `rule` reads back as enabled; enabling `None` turns the three flags off. */
    method EnableVisibilityRule(rule: VisibilityRule)
      modifies this
      ensures State() == old(State()).(flags := WithRule(old(Flags()), rule, true))
      ensures IsVisibilityRuleEnabled(rule)
    {
      SetVisibilityRule(rule, true);
    }

    /** Afterwards `rule` reads back as disabled; disabling `None` turns the three flags on. */
    method DisableVisibilityRule(rule: VisibilityRule)
      modifies this
      ensures State() == old(State()).(flags := WithRule(old(Flags()), rule, false))
      ensures !IsVisibilityRuleEnabled(rule)
    {
      SetVisibilityRule(rule, false);
    }

    /** `IsVisibilityRuleEnabled`: `RuleEnabled` on the component's flags. */
    predicate IsVisibilityRuleEnabled(rule: VisibilityRule)
      reads this
    {
      RuleEnabled(Flags(), rule)
    }

    /** `IsViewVisible`: `ViewVisible` on the component's flags, whether any target is spotted or
        detected, and the current skin mode. */
    predicate IsViewVisible()
      reads this
    {
      ViewVisible(Flags(), |detectedTargets + spottedTargets| > 0, currentSkinMode)
    }

    /** `GetDeviationAngle` at time `time`: towards the first visible target when there is one,
        otherwise 0 while the rotation is paused, and otherwise the cool-down rotation pattern
        while fading out and the default pattern at other times. The rotation curves and the
        angle towards a target are parameters. */
    function GetDeviationAngle(time: real, defaultRotation: real -> real, coolDownRotation: real -> real,
                               targetAngle: ObjectId -> real): (angle: real)
      reads this
      ensures spottedTargets + detectedTargets != [] ==> angle == targetAngle((spottedTargets + detectedTargets)[0])
      ensures spottedTargets == [] && detectedTargets == [] && isRotationPaused ==> angle == 0.0
      ensures spottedTargets == [] && detectedTargets == [] && !isRotationPaused ==>
                angle == (if currentSkinMode == FadeOutMode then coolDownRotation(time) else defaultRotation(time))
    {
      if |spottedTargets| == 0 && |detectedTargets| == 0 then
        if isRotationPaused then 0.0
        else if currentSkinMode == FadeOutMode then coolDownRotation(time)
        else defaultRotation(time)
      else
        targetAngle((spottedTargets + detectedTargets)[0])
    }

    /** Switches the shader keyword only when the mode changes. */
    method SetSkinMode(skinMode: SkinMode)
      modifies this
      ensures State() == old(State()).(currentSkinMode := skinMode,
                                       shaderModes := old(shaderModes) + (if old(currentSkinMode) == skinMode then [] else [skinMode]))
    {
      if currentSkinMode == skinMode {
        return;
      }
      currentSkinMode := skinMode;
      shaderModes := shaderModes + [skinMode];
    }

    /** `Start`: the skin begins passive. */
    method Start()
      modifies this
      ensures currentSkinMode == PassiveMode
      ensures State() == old(State()).(currentSkinMode := PassiveMode,
                                       shaderModes := old(shaderModes) + (if old(currentSkinMode) == PassiveMode then [] else [PassiveMode]))
    {
      SetSkinMode(PassiveMode);
    }

    /** Moves the skin border one frame of `deltaTime` as `NextSkin` says. */
    method UpdateMeshSkin(maxFieldOfViewRadius: real, deltaTime: real)
      requires detectionTime != 0.0 && coolDownTime != 0.0
      modifies this
      ensures detectionTime == old(detectionTime) && coolDownTime == old(coolDownTime)
      ensures var next := NextSkin(Skin(old(skinsOffset), old(currentSkinMode)), |spottedTargets|, |detectedTargets|,
                                   maxFieldOfViewRadius,
                                   FadeInStep(deltaTime, viewRadius, detectionTime), FadeOutStep(deltaTime, viewRadius, coolDownTime));
              State() == old(State()).(skinsOffset := next.offset, currentSkinMode := next.mode,
                                       shaderModes := old(shaderModes) + (if old(currentSkinMode) == next.mode then [] else [next.mode]))
    {
      if |detectedTargets| != 0 {
        skinsOffset := maxFieldOfViewRadius;
        SetSkinMode(ActiveMode);
      } else if |spottedTargets| == 0 && ApproximatelyZero(skinsOffset) {
        skinsOffset := 0.0;
        SetSkinMode(PassiveMode);
      } else if |spottedTargets| == 0 {
        skinsOffset := skinsOffset - FadeOutStep(deltaTime, viewRadius, coolDownTime);
        if skinsOffset < 0.0 {
          skinsOffset := 0.0;
        }
        SetSkinMode(FadeOutMode);
      } else {
        skinsOffset := skinsOffset + FadeInStep(deltaTime, viewRadius, detectionTime);
        if skinsOffset > maxFieldOfViewRadius {
          skinsOffset := maxFieldOfViewRadius;
        }
        SetSkinMode(FadeInMode);
      }
    }

    /** The discovery loop of `DetectTargets`: each sighted target is spotted, or promoted when
        the skin offset has reached it. */
    method DiscoverTargets(discoveredTargets: seq<Sighting>)
      modifies this
      ensures Targets() == DiscoverAll(old(Targets()), discoveredTargets, skinsOffset)
      ensures State() == old(State()).(spottedTargets := spottedTargets, detectedTargets := detectedTargets, events := events)
    {
      for i := 0 to |discoveredTargets|
        invariant Targets() == DiscoverAll(old(Targets()), discoveredTargets[..i], skinsOffset)
        invariant State() == old(State()).(spottedTargets := spottedTargets, detectedTargets := detectedTargets, events := events)
      {
        var discovered := discoveredTargets[i];
        ghost var before := Targets();
        assert discoveredTargets[..i + 1][..i] == discoveredTargets[..i];
        if discovered.target in spottedTargets {
          if skinsOffset >= discovered.distance {
            spottedTargets := RemoveFirst(spottedTargets, discovered.target);
            detectedTargets := detectedTargets + [discovered.target];
            events := events + [TargetDetected(discovered.target)];
          }
        } else if discovered.target !in detectedTargets {
          spottedTargets := spottedTargets + [discovered.target];
          events := events + [TargetSpotted(discovered.target)];
        }
        assert Targets() == DiscoverStep(before, discovered, skinsOffset);
      }
      assert discoveredTargets[..|discoveredTargets|] == discoveredTargets;
    }

    /** The loss loop of `DetectTargets`: each lost target leaves its list and is reported. */
    method LoseTargets(lostTargets: seq<ObjectId>)
      modifies this
      ensures Targets() == LoseAll(old(Targets()), lostTargets)
      ensures State() == old(State()).(spottedTargets := spottedTargets, detectedTargets := detectedTargets, events := events)
    {
      for i := 0 to |lostTargets|
        invariant Targets() == LoseAll(old(Targets()), lostTargets[..i])
        invariant State() == old(State()).(spottedTargets := spottedTargets, detectedTargets := detectedTargets, events := events)
      {
        var lost := lostTargets[i];
        ghost var before := Targets();
        assert lostTargets[..i + 1][..i] == lostTargets[..i];
        if lost in spottedTargets {
          spottedTargets := RemoveFirst(spottedTargets, lost);
        } else if lost in detectedTargets {
          detectedTargets := RemoveFirst(detectedTargets, lost);
        }
        events := events + [TargetLost(lost)];
        assert Targets() == LoseStep(before, lost);
      }
      assert lostTargets[..|lostTargets|] == lostTargets;
    }

    /** `DetectTargets` on the rays of one frame: the target lists and events follow `Tick`, the
        skin then follows `NextSkin` with the longest ray, and the lists stay valid. */
    method DetectTargets(fieldOfViewData: seq<RayCastResult>, deltaTime: real)
      requires Valid()
      requires |fieldOfViewData| >= 1
      requires detectionTime != 0.0 && coolDownTime != 0.0
      modifies this
      ensures Valid()
      ensures Targets() == Tick(old(Targets()), fieldOfViewData, old(skinsOffset))
      ensures detectionTime == old(detectionTime) && coolDownTime == old(coolDownTime)
      ensures var next := NextSkin(Skin(old(skinsOffset), old(currentSkinMode)), |spottedTargets|, |detectedTargets|,
                                   MaxLength(fieldOfViewData),
                                   FadeInStep(deltaTime, viewRadius, detectionTime), FadeOutStep(deltaTime, viewRadius, coolDownTime));
              State() == old(State()).(skinsOffset := next.offset, currentSkinMode := next.mode,
                                       spottedTargets := spottedTargets, detectedTargets := detectedTargets, events := events,
                                       shaderModes := old(shaderModes) + (if old(currentSkinMode) == next.mode then [] else [next.mode]))
    {
      var discoveredTargets := Nearest(Flatten(fieldOfViewData));
      ghost var start := Targets();
      DiscoverTargets(discoveredTargets);
      var lostTargets := Except(spottedTargets + detectedTargets, TargetTracking.Targets(discoveredTargets));
      LoseTargets(lostTargets);
      TickTracksExactlySighted(start, fieldOfViewData, skinsOffset);
      UpdateMeshSkin(MaxLength(fieldOfViewData), deltaTime);
    }
  }
}
