/** The configuration rules of the component: the clamping setters, the visibility-rule flags
    (where `None` stands for all three flags at once) and the visibility of the view. */
module ViewSettings {
  import opened SkinBlend

  const MinAngle: int := 1
  const MaxAngle: int := 360
  const MinResolution: real := 0.5
  const MaxResolution: real := 2.0
  const MinMeshAccuracy: int := 2
  const MaxMeshAccuracy: int := 10

  function GapInt(a: int, b: int): nat {
    if a >= b then a - b else b - a
  }

  function GapReal(a: real, b: real): real {
    if a >= b then a - b else b - a
  }

  /** `Mathf.Clamp` on integers: the point of [min, max] nearest to `value`, so a value already in
      range is stored unchanged. */
  function ClampInt(value: int, min: int, max: int): (r: int)
    requires min <= max
    ensures min <= r <= max
    ensures forall y :: min <= y <= max ==> GapInt(r, value) <= GapInt(y, value)
    ensures min <= value <= max ==> r == value
  {
    if value < min then min else if value > max then max else value
  }

  /** `Mathf.Clamp` on floats: the point of [min, max] nearest to `value`, so a value already in
      range is stored unchanged. */
  function ClampReal(value: real, min: real, max: real): (r: real)
    requires min <= max
    ensures min <= r <= max
    ensures forall y :: min <= y <= max ==> GapReal(r, value) <= GapReal(y, value)
    ensures min <= value <= max ==> r == value
  {
    if value < min then min else if value > max then max else value
  }

  datatype VisibilityRule = None | AlwaysVisible | IfTargetDetected | IfCoolDown

  datatype VisibilityFlags = VisibilityFlags(alwaysVisible: bool, visibleIfTargetDetected: bool, visibleDuringCoolDown: bool)

  /** `IsVisibilityRuleEnabled`: `None` is enabled when no flag is set. */
  predicate RuleEnabled(flags: VisibilityFlags, rule: VisibilityRule) {
    match rule
    case None => !flags.alwaysVisible && !flags.visibleIfTargetDetected && !flags.visibleDuringCoolDown
    case AlwaysVisible => flags.alwaysVisible
    case IfTargetDetected => flags.visibleIfTargetDetected
    case IfCoolDown => flags.visibleDuringCoolDown
  }

  /** `SetVisibilityRule`: enabling `None` clears all three flags, disabling it sets them all; any
      other rule sets its own flag. Afterwards the rule reads back as enabled exactly when it was
      enabled, and the flags of the other rules are untouched. */
  function WithRule(flags: VisibilityFlags, rule: VisibilityRule, flag: bool): (r: VisibilityFlags)
    ensures RuleEnabled(r, rule) == flag
    ensures rule != None ==> forall other :: other != rule && other != None ==> RuleEnabled(r, other) == RuleEnabled(flags, other)
    ensures rule == None ==> forall other :: other != None ==> RuleEnabled(r, other) == !flag
  {
    match rule
    case None => VisibilityFlags(!flag, !flag, !flag)
    case AlwaysVisible => flags.(alwaysVisible := flag)
    case IfTargetDetected => flags.(visibleIfTargetDetected := flag)
    case IfCoolDown => flags.(visibleDuringCoolDown := flag)
  }

  /** `IsViewVisible`: the view is drawn when it is always visible, when targets are in view and it
      is visible then, or while it fades out and it is visible during the cool-down, and in no other
      case. With the rule `None` enabled it is never drawn; with `AlwaysVisible` enabled it always
      is. */
  function ViewVisible(flags: VisibilityFlags, visibleTargetsExist: bool, mode: SkinMode): (visible: bool)
    ensures RuleEnabled(flags, None) ==> !visible
    ensures RuleEnabled(flags, AlwaysVisible) ==> visible
    ensures visible <==>
              RuleEnabled(flags, AlwaysVisible) ||
              (visibleTargetsExist && RuleEnabled(flags, IfTargetDetected)) ||
              (mode == FadeOutMode && RuleEnabled(flags, IfCoolDown))
  {
    flags.alwaysVisible || (visibleTargetsExist && flags.visibleIfTargetDetected) ||
    (mode == FadeOutMode && flags.visibleDuringCoolDown)
  }
}
