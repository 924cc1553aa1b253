/** The sweep over the cone (`CastFieldOfView`): base rays at equal steps from one edge of the
    cone, with the refinement rays of every sector inserted between its two base rays. */
module ConeSweep {
  import opened RayCasting
  import opened EdgeRefinement

  function Max(a: real, b: real): real {
    if a < b then b else a
  }

  /** `Mathf.Max(1, viewAngle * viewResolution)`: the number of sectors, possibly fractional. */
  function SectorsCount(viewAngle: int, viewResolution: real): real {
    Max(1.0, viewAngle as real * viewResolution)
  }

  /** The number of base rays, one per `i` with `i <= sectorsCount`. */
  function BaseRayCount(viewAngle: int, viewResolution: real): nat {
    SectorsCount(viewAngle, viewResolution).Floor as nat + 1
  }

  /** The angle of base ray `i`: the cone's left edge plus `i` sectors. */
  function BaseAngle(deviation: real, viewAngle: int, viewResolution: real, i: int): real {
    deviation - viewAngle as real / 2.0 + i as real * (viewAngle as real / SectorsCount(viewAngle, viewResolution))
  }

  function BaseAngles(deviation: real, viewAngle: int, viewResolution: real): (angles: seq<real>)
    ensures |angles| == BaseRayCount(viewAngle, viewResolution)
    ensures forall i :: 0 <= i < |angles| ==> angles[i] == BaseAngle(deviation, viewAngle, viewResolution, i)
  {
    seq(BaseRayCount(viewAngle, viewResolution), i => BaseAngle(deviation, viewAngle, viewResolution, i))
  }

  predicate Increasing(angles: seq<real>) {
    forall i, j :: 0 <= i < j < |angles| ==> angles[i] < angles[j]
  }

  lemma SectorAnglePositive(viewAngle: int, viewResolution: real)
    requires 0 < viewAngle
    ensures 0.0 < viewAngle as real / SectorsCount(viewAngle, viewResolution)
    ensures SectorsCount(viewAngle, viewResolution) * (viewAngle as real / SectorsCount(viewAngle, viewResolution)) == viewAngle as real
  {
  }

  lemma BaseAngleDifference(deviation: real, viewAngle: int, viewResolution: real, i: int, j: int)
    requires 0 < viewAngle && i < j
    ensures BaseAngle(deviation, viewAngle, viewResolution, i) < BaseAngle(deviation, viewAngle, viewResolution, j)
  {
    var sectorAngle := viewAngle as real / SectorsCount(viewAngle, viewResolution);
    SectorAnglePositive(viewAngle, viewResolution);
    assert j as real * sectorAngle - i as real * sectorAngle == (j - i) as real * sectorAngle;
    assert (j - i) as real * sectorAngle >= sectorAngle by {
      assert (j - i) as real * sectorAngle - sectorAngle == (j - i - 1) as real * sectorAngle;
    }
  }

  lemma BaseAnglesIncreasing(deviation: real, viewAngle: int, viewResolution: real)
    requires 0 < viewAngle
    ensures Increasing(BaseAngles(deviation, viewAngle, viewResolution))
  {
    var angles := BaseAngles(deviation, viewAngle, viewResolution);
    forall i, j | 0 <= i < j < |angles| ensures angles[i] < angles[j] {
      BaseAngleDifference(deviation, viewAngle, viewResolution, i, j);
    }
  }

  function LastBaseAngle(deviation: real, viewAngle: int, viewResolution: real): real {
    BaseAngle(deviation, viewAngle, viewResolution, BaseRayCount(viewAngle, viewResolution) - 1)
  }

  /** The base rays: at least two of them, at increasing angles, the first on the cone's left
      edge, the last at most on its right edge and less than one sector short of it, and on it
      exactly when the number of sectors is whole. */
  lemma BaseAnglesFacts(deviation: real, viewAngle: int, viewResolution: real)
    requires 0 < viewAngle
    ensures |BaseAngles(deviation, viewAngle, viewResolution)| >= 2
    ensures Increasing(BaseAngles(deviation, viewAngle, viewResolution))
    ensures BaseAngles(deviation, viewAngle, viewResolution)[0] == deviation - viewAngle as real / 2.0
    ensures LastBaseAngle(deviation, viewAngle, viewResolution) <= deviation + viewAngle as real / 2.0
    ensures deviation + viewAngle as real / 2.0 - LastBaseAngle(deviation, viewAngle, viewResolution)
          < viewAngle as real / SectorsCount(viewAngle, viewResolution)
    ensures LastBaseAngle(deviation, viewAngle, viewResolution) == deviation + viewAngle as real / 2.0
        <==> SectorsCount(viewAngle, viewResolution).Floor as real == SectorsCount(viewAngle, viewResolution)
  {
    BaseAnglesIncreasing(deviation, viewAngle, viewResolution);
    var s := SectorsCount(viewAngle, viewResolution);
    var a := viewAngle as real;
    var sectorAngle := a / s;
    SectorAnglePositive(viewAngle, viewResolution);
    var angles := BaseAngles(deviation, viewAngle, viewResolution);
    var n := s.Floor;
    var last := LastBaseAngle(deviation, viewAngle, viewResolution);
    assert last == deviation - a / 2.0 + n as real * sectorAngle;
    var gap := s - n as real;
    assert a == s * sectorAngle;
    assert s * sectorAngle - n as real * sectorAngle == gap * sectorAngle;
    assert deviation + a / 2.0 - last == a - n as real * sectorAngle;
    PartOfSector(deviation + a / 2.0 - last, gap, sectorAngle);
  }

  /** A fraction `gap` in [0, 1) of a positive sector is shorter than the sector, and zero only
      when the fraction is. */
  lemma PartOfSector(part: real, gap: real, sectorAngle: real)
    requires part == gap * sectorAngle
    requires 0.0 <= gap < 1.0 && 0.0 < sectorAngle
    ensures 0.0 <= part < sectorAngle
    ensures part == 0.0 <==> gap == 0.0
  {
    var rest := (1.0 - gap) * sectorAngle;
    assert 0.0 < rest;
    assert sectorAngle - part == rest;
  }

  /** The rays of a sweep over the given base angles: the first base ray, then for every further
      base ray the refinement rays of its sector followed by the base ray itself. */
  function Sweep(cast: Caster, curveAccuracy: int, angles: seq<real>): (rays: seq<RayCastResult>)
    requires ReportsAngle(cast)
    requires Increasing(angles)
    ensures |angles| == 0 ==> rays == []
    ensures |angles| > 0 ==> |rays| > 0 && rays[0] == cast(angles[0]) && rays[|rays| - 1] == cast(angles[|angles| - 1])
    ensures StrictlyIncreasingAngles(rays)
    ensures forall i :: 0 <= i < |rays| ==> rays[i] == cast(rays[i].angle)
    ensures forall k :: 0 <= k < |angles| ==> cast(angles[k]) in rays
  {
    if |angles| <= 1 then
      if angles == [] then []
      else
        assert cast(angles[0]).angle == angles[0];
        [cast(angles[0])]
    else
      var n := |angles| - 1;
      var init := angles[..n];
      IncreasingPrefix(angles, n);
      var before := Sweep(cast, curveAccuracy, init);
      var current := cast(angles[n]);
      assert cast(angles[n - 1]).angle == angles[n - 1] < angles[n] == current.angle;
      var between := GenerateSubsegments(cast, curveAccuracy, cast(angles[n - 1]), current);
      SweepExtend(cast, angles, init, before, between);
      before + between + [current]
  }

  /** Appending the refinement rays of the last sector and the last base ray keeps the shape of a
      sweep. */
  lemma SweepExtend(cast: Caster, angles: seq<real>, init: seq<real>,
                    before: seq<RayCastResult>, between: seq<RayCastResult>)
    requires ReportsAngle(cast)
    requires Increasing(angles) && |angles| >= 2 && init == angles[..|angles| - 1]
    requires |before| > 0 && before[0] == cast(init[0]) && before[|before| - 1] == cast(init[|init| - 1])
    requires StrictlyIncreasingAngles(before)
    requires forall i :: 0 <= i < |before| ==> before[i] == cast(before[i].angle)
    requires forall k :: 0 <= k < |init| ==> cast(init[k]) in before
    requires Inside(cast, between, cast(angles[|angles| - 2]).angle, cast(angles[|angles| - 1]).angle)
    ensures var rays := before + between + [cast(angles[|angles| - 1])];
      rays[0] == cast(angles[0]) && rays[|rays| - 1] == cast(angles[|angles| - 1]) &&
      StrictlyIncreasingAngles(rays) &&
      (forall i :: 0 <= i < |rays| ==> rays[i] == cast(rays[i].angle)) &&
      (forall k :: 0 <= k < |angles| ==> cast(angles[k]) in rays)
  {
    var n := |angles| - 1;
    var current := cast(angles[n]);
    assert init[n - 1] == angles[n - 1] && init[0] == angles[0];
    assert cast(angles[n - 1]).angle == angles[n - 1] < angles[n] == current.angle;
    SweepStep(cast, before, between, current);
    var rays := before + between + [current];
    forall k | 0 <= k < |angles| ensures cast(angles[k]) in rays {
      if k < n {
        assert init[k] == angles[k];
        assert cast(init[k]) in before;
      } else {
        assert rays[|rays| - 1] == current;
      }
    }
  }

  lemma SweepStep(cast: Caster, before: seq<RayCastResult>, between: seq<RayCastResult>, current: RayCastResult)
    requires |before| > 0
    requires StrictlyIncreasingAngles(before)
    requires forall i :: 0 <= i < |before| ==> before[i] == cast(before[i].angle)
    requires Inside(cast, between, before[|before| - 1].angle, current.angle)
    requires current == cast(current.angle)
    requires before[|before| - 1].angle < current.angle
    ensures var rays := before + between + [current];
      StrictlyIncreasingAngles(rays) &&
      (forall i :: 0 <= i < |rays| ==> rays[i] == cast(rays[i].angle)) &&
      (forall r :: r in before ==> r in rays)
  {
    var last := before[|before| - 1].angle;
    var rays := before + between + [current];
    forall i | 0 <= i < |before| ensures before[i].angle <= last {
      if i < |before| - 1 {
      }
    }
    forall i, j | 0 <= i < j < |rays| ensures rays[i].angle < rays[j].angle {
      if j < |before| {
        assert rays[i] == before[i] && rays[j] == before[j];
      } else if j < |before| + |between| {
        assert rays[j] == between[j - |before|];
        if i < |before| {
          assert rays[i] == before[i];
        } else {
          assert rays[i] == between[i - |before|];
        }
      } else {
        assert rays[j] == current;
        if i < |before| {
          assert rays[i] == before[i];
        } else {
          assert rays[i] == between[i - |before|];
        }
      }
    }
    forall i | 0 <= i < |rays| ensures rays[i] == cast(rays[i].angle) {
      if i < |before| {
        assert rays[i] == before[i];
      } else if i < |before| + |between| {
        assert rays[i] == between[i - |before|];
      }
    }
    forall r | r in before ensures r in rays {
      var i :| 0 <= i < |before| && before[i] == r;
      assert rays[i] == r;
    }
  }

  lemma IncreasingPrefix(angles: seq<real>, i: nat)
    requires Increasing(angles) && i <= |angles|
    ensures Increasing(angles[..i])
  {
    assert forall k :: 0 <= k < i ==> angles[..i][k] == angles[k];
  }

  /** The sweep over two or more base angles: the sweep over all but the last one, the refinement
      rays of the last sector, and the last base ray. */
  lemma SweepUnfold(cast: Caster, curveAccuracy: int, angles: seq<real>)
    requires ReportsAngle(cast)
    requires |angles| >= 2
    requires Increasing(angles) && Increasing(angles[..|angles| - 1])
    requires cast(angles[|angles| - 2]).angle <= cast(angles[|angles| - 1]).angle
    ensures Sweep(cast, curveAccuracy, angles)
         == Sweep(cast, curveAccuracy, angles[..|angles| - 1])
            + GenerateSubsegments(cast, curveAccuracy, cast(angles[|angles| - 2]), cast(angles[|angles| - 1]))
            + [cast(angles[|angles| - 1])]
  {
  }

  /** The sweep over one base angle is its ray; one more base angle appends its sector's
      refinement rays and its ray. */
  lemma SweepSnoc(cast: Caster, curveAccuracy: int, angles: seq<real>, i: nat)
    requires ReportsAngle(cast)
    requires Increasing(angles)
    requires i < |angles|
    ensures Increasing(angles[..i]) && Increasing(angles[..i + 1])
    ensures i == 0 ==> Sweep(cast, curveAccuracy, angles[..i + 1]) == [cast(angles[0])]
    ensures i > 0 ==>
              cast(angles[i - 1]).angle < cast(angles[i]).angle &&
              Sweep(cast, curveAccuracy, angles[..i + 1])
                == Sweep(cast, curveAccuracy, angles[..i]) + GenerateSubsegments(cast, curveAccuracy, cast(angles[i - 1]), cast(angles[i])) + [cast(angles[i])]
  {
    IncreasingPrefix(angles, i);
    IncreasingPrefix(angles, i + 1);
    var prefix := angles[..i + 1];
    assert prefix[..i] == angles[..i];
    assert prefix[i] == angles[i];
    if i > 0 {
      assert prefix[i - 1] == angles[i - 1];
      assert cast(angles[i - 1]).angle == angles[i - 1] < angles[i] == cast(angles[i]).angle;
      SweepUnfold(cast, curveAccuracy, prefix);
    }
  }

  /** `i <= sectorsCount` holds for exactly the indices of the base rays. */
  lemma LoopGuard(viewAngle: int, viewResolution: real, i: int)
    requires 0 <= i
    ensures i as real <= SectorsCount(viewAngle, viewResolution) <==> i < BaseRayCount(viewAngle, viewResolution)
  {
  }

  /** The angle the loop computes for ray `i` is base angle `i`. */
  lemma BaseAngleAt(deviation: real, viewAngle: int, viewResolution: real, i: nat,
                    sectorsCount: real, sectorAngle: real, currentRayAngle: real)
    requires i < BaseRayCount(viewAngle, viewResolution)
    requires sectorsCount == Max(1.0, viewAngle as real * viewResolution)
    requires sectorAngle == viewAngle as real / sectorsCount
    requires currentRayAngle == deviation - viewAngle as real / 2.0 + i as real * sectorAngle
    ensures BaseAngles(deviation, viewAngle, viewResolution)[i] == currentRayAngle
  {
  }

  /** `CastFieldOfView`: the loop `for (i = 0; i <= sectorsCount; i++)` over the base rays, each
      sector refined between the previous and the current ray. */
  method CastFieldOfView(cast: Caster, curveAccuracy: int, deviation: real, viewAngle: int, viewResolution: real)
    returns (fieldOfViewRays: seq<RayCastResult>)
    requires ReportsAngle(cast)
    requires 0 < viewAngle
    ensures Increasing(BaseAngles(deviation, viewAngle, viewResolution)) &&
            fieldOfViewRays == Sweep(cast, curveAccuracy, BaseAngles(deviation, viewAngle, viewResolution))
  {
    BaseAnglesIncreasing(deviation, viewAngle, viewResolution);
    ghost var angles := BaseAngles(deviation, viewAngle, viewResolution);
    var sectorsCount := Max(1.0, viewAngle as real * viewResolution);
    var sectorAngle := viewAngle as real / sectorsCount;
    fieldOfViewRays := [];
    var previousRay: Option<RayCastResult> := None;
    var i := 0;
    LoopGuard(viewAngle, viewResolution, i);
    IncreasingPrefix(angles, 0);
    while i as real <= sectorsCount
      invariant 0 <= i <= |angles|
      invariant i as real <= sectorsCount <==> i < |angles|
      invariant Increasing(angles[..i])
      invariant fieldOfViewRays == Sweep(cast, curveAccuracy, angles[..i])
      invariant i == 0 ==> previousRay == None
      invariant i > 0 ==> previousRay == Some(cast(angles[i - 1]))
      decreases |angles| - i
    {
      var currentRayAngle := deviation - viewAngle as real / 2.0 + i as real * sectorAngle;
      BaseAngleAt(deviation, viewAngle, viewResolution, i, sectorsCount, sectorAngle, currentRayAngle);
      var currentRay := cast(currentRayAngle);
      SweepSnoc(cast, curveAccuracy, angles, i);
      assert i > 0 ==> previousRay.value.angle < currentRay.angle;
      if previousRay.Some? {
        fieldOfViewRays := fieldOfViewRays + GenerateSubsegments(cast, curveAccuracy, previousRay.value, currentRay);
      }
      fieldOfViewRays := fieldOfViewRays + [currentRay];
      previousRay := Some(currentRay);
      i := i + 1;
      LoopGuard(viewAngle, viewResolution, i);
    }
    assert angles[..i] == angles;
  }
}
