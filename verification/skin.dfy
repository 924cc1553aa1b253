/** The blend between the passive and the active skin (`UpdateMeshSkin`): the skin offset is the
    border between the two skins, measured from the origin along the rays, and the skin mode says
    which way it moves. */
module SkinBlend {

  /** The shader keywords, in the order of the C# enum. */
  datatype SkinMode = NoneMode | PassiveMode | ActiveMode | FadeInMode | FadeOutMode

  datatype Skin = Skin(offset: real, mode: SkinMode)

  /** `Mathf.Approximately(x, 0)` holds only when |x| is below eight times the smallest positive
      single-precision value, 8 * 1.401298e-45. */
  const ZeroTolerance: real := 0.000000000000000000000000000000000000000000011210384

  predicate ApproximatelyZero(x: real) {
    -ZeroTolerance < x < ZeroTolerance
  }

  function Min(a: real, b: real): real {
    if a <= b then a else b
  }

  function Max(a: real, b: real): real {
    if a <= b then b else a
  }

  /** How far the border moves out in one frame while a target is spotted. */
  function FadeInStep(deltaTime: real, viewRadius: real, detectionTime: real): real
    requires detectionTime != 0.0
  {
    deltaTime * viewRadius / detectionTime
  }

  /** How far the border moves back in one frame once every target is gone. */
  function FadeOutStep(deltaTime: real, viewRadius: real, coolDownTime: real): real
    requires coolDownTime != 0.0
  {
    deltaTime * viewRadius / coolDownTime
  }

  /** With a non-negative frame time and radius and a positive detection or cool-down time, the
      border moves by a non-negative step. */
  lemma StepsNonNegative(deltaTime: real, viewRadius: real, time: real)
    requires 0.0 < time && 0.0 <= deltaTime && 0.0 <= viewRadius
    ensures 0.0 <= FadeInStep(deltaTime, viewRadius, time)
    ensures 0.0 <= FadeOutStep(deltaTime, viewRadius, time)
  {
    assert 0.0 <= deltaTime * viewRadius;
  }

  /** The skin after one call of `UpdateMeshSkin`, given the sizes of the two target lists, the
      longest ray of the frame and the frame's two steps (`FadeInStep`, `FadeOutStep`). A
      cool-down frame moves the border back by exactly one fade-out step, stopping at the origin;
      a spotting frame moves it out by exactly one fade-in step, stopping at the longest ray. */
  function NextSkin(skin: Skin, spottedCount: nat, detectedCount: nat, maxFieldOfViewRadius: real,
                    fadeIn: real, fadeOut: real): (next: Skin)
    ensures next.mode == ActiveMode <==> detectedCount != 0
    ensures next.mode == FadeInMode <==> detectedCount == 0 && spottedCount != 0
    ensures next.mode == PassiveMode <==> detectedCount == 0 && spottedCount == 0 && ApproximatelyZero(skin.offset)
    ensures next.mode == FadeOutMode <==> detectedCount == 0 && spottedCount == 0 && !ApproximatelyZero(skin.offset)
    ensures next.mode == PassiveMode ==> next.offset == 0.0
    ensures next.mode == ActiveMode ==> next.offset == maxFieldOfViewRadius
    ensures next.mode == FadeOutMode ==> next.offset == Max(0.0, skin.offset - fadeOut)
    ensures next.mode == FadeInMode ==> next.offset == Min(maxFieldOfViewRadius, skin.offset + fadeIn)
  {
    if detectedCount != 0 then
      Skin(maxFieldOfViewRadius, ActiveMode)
    else if spottedCount == 0 && ApproximatelyZero(skin.offset) then
      Skin(0.0, PassiveMode)
    else if spottedCount == 0 then
      var offset := skin.offset - fadeOut;
      Skin(if offset < 0.0 then 0.0 else offset, FadeOutMode)
    else
      var offset := skin.offset + fadeIn;
      Skin(if offset > maxFieldOfViewRadius then maxFieldOfViewRadius else offset, FadeInMode)
  }

  /** With non-negative steps and a non-negative longest ray, the offset never goes negative, and
      the fade-out never moves the border outwards. */
  lemma SkinOffsetNonNegative(skin: Skin, spottedCount: nat, detectedCount: nat, maxFieldOfViewRadius: real,
                              fadeIn: real, fadeOut: real)
    requires 0.0 <= fadeIn && 0.0 <= fadeOut && 0.0 <= maxFieldOfViewRadius && 0.0 <= skin.offset
    ensures 0.0 <= NextSkin(skin, spottedCount, detectedCount, maxFieldOfViewRadius, fadeIn, fadeOut).offset
    ensures NextSkin(skin, spottedCount, detectedCount, maxFieldOfViewRadius, fadeIn, fadeOut).mode == FadeOutMode ==>
              NextSkin(skin, spottedCount, detectedCount, maxFieldOfViewRadius, fadeIn, fadeOut).offset <= skin.offset
  {
  }

  /** `n` frames in which no target is in view. */
  function Idle(skin: Skin, n: nat, maxFieldOfViewRadius: real, fadeIn: real, fadeOut: real): Skin
    decreases n
  {
    if n == 0 then skin
    else Idle(NextSkin(skin, 0, 0, maxFieldOfViewRadius, fadeIn, fadeOut), n - 1, maxFieldOfViewRadius, fadeIn, fadeOut)
  }

  /** `n` frames in which some target is spotted and none is detected. */
  function Spotting(skin: Skin, n: nat, maxFieldOfViewRadius: real, fadeIn: real, fadeOut: real): Skin
    decreases n
  {
    if n == 0 then skin
    else Spotting(NextSkin(skin, 1, 0, maxFieldOfViewRadius, fadeIn, fadeOut), n - 1, maxFieldOfViewRadius, fadeIn, fadeOut)
  }

  /** `n` steps of the given length laid end to end. */
  function Steps(n: nat, step: real): (total: real)
    ensures total == n as real * step
  {
    if n == 0 then 0.0 else Steps(n - 1, step) + step
  }

  /** The cool-down: after `n` frames with no target in view the border has moved back by at least
      `n` fade-out steps (and stops at the origin), and the skin is fading out or passive. With
      the step `deltaTime * viewRadius / coolDownTime`, once `n * deltaTime` reaches
      `coolDownTime` a border that started within the view radius is back at the origin. */
  lemma {:induction false} IdleFadesOut(skin: Skin, n: nat, maxFieldOfViewRadius: real, fadeIn: real, fadeOut: real)
    requires 0.0 <= fadeOut && 0.0 <= skin.offset
    ensures var after := Idle(skin, n, maxFieldOfViewRadius, fadeIn, fadeOut);
            0.0 <= after.offset <= Max(0.0, skin.offset - Steps(n, fadeOut)) &&
            (n == 0 || after.mode == FadeOutMode || after.mode == PassiveMode)
    decreases n
  {
    if n > 0 {
      var next := NextSkin(skin, 0, 0, maxFieldOfViewRadius, fadeIn, fadeOut);
      assert 0.0 <= next.offset <= Max(0.0, skin.offset - fadeOut);
      IdleFadesOut(next, n - 1, maxFieldOfViewRadius, fadeIn, fadeOut);
      assert 0.0 <= Steps(n - 1, fadeOut);
    }
  }

  /** The detection delay: after `n >= 1` frames in which a target is spotted but none detected,
      the border stands exactly `n` fade-in steps out, capped by the longest ray. */
  lemma {:induction false} SpottingFadesIn(skin: Skin, n: nat, maxFieldOfViewRadius: real, fadeIn: real, fadeOut: real)
    requires 0.0 <= fadeIn && 1 <= n
    ensures var after := Spotting(skin, n, maxFieldOfViewRadius, fadeIn, fadeOut);
            after.offset == Min(maxFieldOfViewRadius, skin.offset + Steps(n, fadeIn)) &&
            after.mode == FadeInMode
    decreases n
  {
    var next := NextSkin(skin, 1, 0, maxFieldOfViewRadius, fadeIn, fadeOut);
    if n > 1 {
      SpottingFadesIn(next, n - 1, maxFieldOfViewRadius, fadeIn, fadeOut);
    }
  }
}
