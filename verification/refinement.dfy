/** Edge refinement: when two neighbouring view rays report different hit counts, an obstacle
    silhouette lies between them. `FindSubsegmentEdges` bisects the sector `curveAccuracy` times
    to bracket that silhouette, and `GenerateSubsegments` recurses on the part of the sector that
    still spans a change, down to sectors of 0.1 degree. */
module EdgeRefinement {
  import opened LayerMasks
  import opened RayCasting

  datatype Option<T> = None | Some(value: T)

  /** The rays found closest to the silhouette from either side (`SegmentEdgeRays`); either may be
      missing when every probe fell on one side. */
  datatype SegmentEdgeRays = SegmentEdgeRays(startRay: Option<RayCastResult>, endRay: Option<RayCastResult>)

  /** The view ray cast at each angle, in one frame. */
  type Caster = real -> RayCastResult

  /** A caster reports the angle it was asked for, as `CastViewRay` does. */
  ghost predicate ReportsAngle(cast: Caster) {
    forall a :: cast(a).angle == a
  }

  // ---------------------------------------------------------------------------------------------
  // Bisection
  // ---------------------------------------------------------------------------------------------

  /** The loop state of `FindSubsegmentEdges`: the current sector and the edge rays so far. */
  datatype Bracket = Bracket(startAngle: real, endAngle: real, edges: SegmentEdgeRays)

  /** `rounds` more bisection steps: the middle ray replaces the start of the sector when it has
      the start ray's hit count, the end otherwise. */
  function Bisect(cast: Caster, startHits: nat, b: Bracket, rounds: nat): Bracket
    decreases rounds
  {
    if rounds == 0 then b
    else
      var middleAngle := (b.startAngle + b.endAngle) / 2.0;
      var middleRay := cast(middleAngle);
      var next := if middleRay.obstacleHits == startHits
        then Bracket(middleAngle, b.endAngle, SegmentEdgeRays(Some(middleRay), b.edges.endRay))
        else Bracket(b.startAngle, middleAngle, SegmentEdgeRays(b.edges.startRay, Some(middleRay)));
      Bisect(cast, startHits, next, rounds - 1)
  }

  /** The number of loop rounds `for (i = 0; i < curveAccuracy; i++)` runs. */
  function Rounds(curveAccuracy: int): nat {
    if curveAccuracy < 0 then 0 else curveAccuracy
  }

  /** The edges `FindSubsegmentEdges` returns. */
  function SubsegmentEdges(cast: Caster, curveAccuracy: int, startRay: RayCastResult, endRay: RayCastResult): SegmentEdgeRays {
    Bisect(cast, startRay.obstacleHits, Bracket(startRay.angle, endRay.angle, SegmentEdgeRays(None, None)), Rounds(curveAccuracy)).edges
  }

  /** The edge rays sit on the sector's ends: the start edge is the ray at the start angle and has
      the start ray's hit count, the end edge is the ray at the end angle and a different one. */
  predicate EdgesOnBracket(cast: Caster, startHits: nat, b: Bracket) {
    (b.edges.startRay.Some? ==>
      b.edges.startRay.value == cast(b.startAngle) && b.edges.startRay.value.obstacleHits == startHits) &&
    (b.edges.endRay.Some? ==>
      b.edges.endRay.value == cast(b.endAngle) && b.edges.endRay.value.obstacleHits != startHits)
  }

  lemma HalfOfQuotient(w: real, p: real)
    requires p > 0.0
    ensures (w / 2.0) / p == w / (2.0 * p)
  {
  }

  /** Each round halves the sector, which stays inside the original one; the edges stay on the
      sector's ends; after at least one round one edge is known; an end of the sector that never
      moved keeps the edge it started with. */
  lemma {:induction false} BisectFacts(cast: Caster, startHits: nat, b: Bracket, rounds: nat)
    requires b.startAngle <= b.endAngle
    requires EdgesOnBracket(cast, startHits, b)
    ensures Bisect(cast, startHits, b, rounds).endAngle - Bisect(cast, startHits, b, rounds).startAngle
         == (b.endAngle - b.startAngle) / Pow2(rounds) as real
    ensures b.startAngle <= Bisect(cast, startHits, b, rounds).startAngle
    ensures Bisect(cast, startHits, b, rounds).startAngle <= Bisect(cast, startHits, b, rounds).endAngle
    ensures Bisect(cast, startHits, b, rounds).endAngle <= b.endAngle
    ensures EdgesOnBracket(cast, startHits, Bisect(cast, startHits, b, rounds))
    ensures rounds >= 1 ==>
              Bisect(cast, startHits, b, rounds).edges.startRay.Some? || Bisect(cast, startHits, b, rounds).edges.endRay.Some?
    ensures b.startAngle < b.endAngle && Bisect(cast, startHits, b, rounds).startAngle == b.startAngle ==>
              Bisect(cast, startHits, b, rounds).edges.startRay == b.edges.startRay
    ensures b.startAngle < b.endAngle && Bisect(cast, startHits, b, rounds).endAngle == b.endAngle ==>
              Bisect(cast, startHits, b, rounds).edges.endRay == b.edges.endRay
    decreases rounds
  {
    if rounds > 0 {
      var middleAngle := (b.startAngle + b.endAngle) / 2.0;
      var middleRay := cast(middleAngle);
      var next := if middleRay.obstacleHits == startHits
        then Bracket(middleAngle, b.endAngle, SegmentEdgeRays(Some(middleRay), b.edges.endRay))
        else Bracket(b.startAngle, middleAngle, SegmentEdgeRays(b.edges.startRay, Some(middleRay)));
      var w := b.endAngle - b.startAngle;
      assert next.endAngle - next.startAngle == w / 2.0;
      BisectFacts(cast, startHits, next, rounds - 1);
      HalfOfQuotient(w, Pow2(rounds - 1) as real);
      if 0.0 < w {
        assert b.startAngle < middleAngle < b.endAngle;
      }
    }
  }

  /** `FindSubsegmentEdges`: `curveAccuracy` rounds of bisection between two rays. */
  method FindSubsegmentEdges(cast: Caster, curveAccuracy: int, startRay: RayCastResult, endRay: RayCastResult)
    returns (edges: SegmentEdgeRays)
    ensures edges == SubsegmentEdges(cast, curveAccuracy, startRay, endRay)
  {
    var startAngle := startRay.angle;
    var endAngle := endRay.angle;
    var intermediateStartRay: Option<RayCastResult> := None;
    var intermediateEndRay: Option<RayCastResult> := None;
    ghost var init := Bracket(startAngle, endAngle, SegmentEdgeRays(None, None));
    var i := 0;
    while i < curveAccuracy
      invariant curveAccuracy >= 0 ==> 0 <= i <= curveAccuracy
      invariant curveAccuracy < 0 ==> i == 0
      invariant Bisect(cast, startRay.obstacleHits,
                       Bracket(startAngle, endAngle, SegmentEdgeRays(intermediateStartRay, intermediateEndRay)),
                       Rounds(curveAccuracy) - i)
             == Bisect(cast, startRay.obstacleHits, init, Rounds(curveAccuracy))
    {
      var middleAngle := (startAngle + endAngle) / 2.0;
      var middleRay := cast(middleAngle);
      if middleRay.obstacleHits == startRay.obstacleHits {
        startAngle := middleAngle;
        intermediateStartRay := Some(middleRay);
      } else {
        endAngle := middleAngle;
        intermediateEndRay := Some(middleRay);
      }
      i := i + 1;
    }
    edges := SegmentEdgeRays(intermediateStartRay, intermediateEndRay);
  }

  /** With a caster that reports its angles, a found start edge lies strictly after the start
      ray, a found end edge strictly before the end ray, the start edge before the end edge, and
      the two brackets the silhouette to within the sector width divided by 2^rounds. */
  lemma SubsegmentEdgesInside(cast: Caster, curveAccuracy: int, startRay: RayCastResult, endRay: RayCastResult)
    requires ReportsAngle(cast)
    requires startRay.angle < endRay.angle
    ensures var edges := SubsegmentEdges(cast, curveAccuracy, startRay, endRay);
      (edges.startRay.Some? ==>
        startRay.angle < edges.startRay.value.angle < endRay.angle &&
        edges.startRay.value.obstacleHits == startRay.obstacleHits &&
        edges.startRay.value == cast(edges.startRay.value.angle)) &&
      (edges.endRay.Some? ==>
        startRay.angle < edges.endRay.value.angle < endRay.angle &&
        edges.endRay.value.obstacleHits != startRay.obstacleHits &&
        edges.endRay.value == cast(edges.endRay.value.angle)) &&
      (edges.startRay.Some? && edges.endRay.Some? ==>
        edges.endRay.value.angle - edges.startRay.value.angle
          == (endRay.angle - startRay.angle) / Pow2(Rounds(curveAccuracy)) as real) &&
      (curveAccuracy >= 1 ==> edges.startRay.Some? || edges.endRay.Some?)
  {
    var init := Bracket(startRay.angle, endRay.angle, SegmentEdgeRays(None, None));
    var n := Rounds(curveAccuracy);
    BisectFacts(cast, startRay.obstacleHits, init, n);
    var b := Bisect(cast, startRay.obstacleHits, init, n);
    assert 0.0 < (endRay.angle - startRay.angle) / Pow2(n) as real;
  }

  // ---------------------------------------------------------------------------------------------
  // Recursive subdivision
  // ---------------------------------------------------------------------------------------------

  /** Sectors narrower than this many degrees are not subdivided further. */
  const MinSectorAngle: real := 0.1

  /** A sector is subdivided when its rays report different hit counts and it is wider than
      0.1 degree. */
  predicate NeedsSubdivision(startRay: RayCastResult, endRay: RayCastResult) {
    startRay.obstacleHits != endRay.obstacleHits && Abs(endRay.angle - startRay.angle) > MinSectorAngle
  }

  function Abs(x: real): real {
    if x < 0.0 then -x else x
  }

  /** The termination measure: the sector width in units of 0.1 / 2^rounds degrees. */
  function Units(curveAccuracy: int, startRay: RayCastResult, endRay: RayCastResult): nat {
    if NeedsSubdivision(startRay, endRay) && startRay.angle <= endRay.angle
    then ((endRay.angle - startRay.angle) * 10.0 * Pow2(Rounds(curveAccuracy)) as real).Floor as nat + 1
    else 0
  }

  lemma UnitsOfWideSector(curveAccuracy: int, startRay: RayCastResult, endRay: RayCastResult)
    requires NeedsSubdivision(startRay, endRay) && startRay.angle <= endRay.angle
    ensures Units(curveAccuracy, startRay, endRay)
         == ((endRay.angle - startRay.angle) * 10.0 * Pow2(Rounds(curveAccuracy)) as real).Floor + 1 >= 1
  {
    var x := (endRay.angle - startRay.angle) * 10.0 * Pow2(Rounds(curveAccuracy)) as real;
    assert x >= 0.0;
    assert x.Floor >= 0;
  }

  predicate StrictlyIncreasingAngles(rays: seq<RayCastResult>) {
    forall i, j :: 0 <= i < j < |rays| ==> rays[i].angle < rays[j].angle
  }

  /** The rays lie strictly between the angles `low` and `high`, in increasing angle, and each is
      the caster's ray at its angle. */
  predicate Inside(cast: Caster, rays: seq<RayCastResult>, low: real, high: real) {
    (forall i :: 0 <= i < |rays| ==> low < rays[i].angle < high && rays[i] == cast(rays[i].angle)) &&
    StrictlyIncreasingAngles(rays)
  }

  /** `GenerateSubsegments`: the rays inserted between two neighbouring rays, in the order the
      source builds them (start edge, its own subdivision, end edge, its subdivision). Every
      inserted ray is the caster's ray at its angle, lies strictly between the two given rays,
      and the rays come in increasing angle; nothing is inserted when the rays agree on their hit
      count or lie within 0.1 degree. */
  function GenerateSubsegments(cast: Caster, curveAccuracy: int, startRay: RayCastResult, endRay: RayCastResult)
    : (rays: seq<RayCastResult>)
    requires ReportsAngle(cast)
    requires startRay.angle <= endRay.angle
    ensures Inside(cast, rays, startRay.angle, endRay.angle)
    ensures !NeedsSubdivision(startRay, endRay) ==> rays == []
    decreases Units(curveAccuracy, startRay, endRay)
  {
    if NeedsSubdivision(startRay, endRay) then
      var edges := SubsegmentEdges(cast, curveAccuracy, startRay, endRay);
      SubsegmentEdgesInside(cast, curveAccuracy, startRay, endRay);
      UnitsOfWideSector(curveAccuracy, startRay, endRay);
      var startRest := if edges.startRay.Some?
        then
          assert Units(curveAccuracy, startRay, edges.startRay.value) == 0;
          GenerateSubsegments(cast, curveAccuracy, startRay, edges.startRay.value)
        else [];
      var endRest := if edges.endRay.Some?
        then
          EndSideShrinks(cast, curveAccuracy, startRay, endRay);
          GenerateSubsegments(cast, curveAccuracy, edges.endRay.value, endRay)
        else [];
      AssembleInside(cast, curveAccuracy, startRay, endRay, startRest, endRest);
      Assemble(edges, startRest, endRest)
    else []
  }

  /** The rays of one subdivision: the start edge and the rays before it, then the end edge and
      the rays after it. */
  function Assemble(edges: SegmentEdgeRays, startRest: seq<RayCastResult>, endRest: seq<RayCastResult>)
    : seq<RayCastResult>
  {
    (if edges.startRay.Some? then [edges.startRay.value] + startRest else []) +
    (if edges.endRay.Some? then [edges.endRay.value] + endRest else [])
  }

  lemma AssembleInside(cast: Caster, curveAccuracy: int, startRay: RayCastResult, endRay: RayCastResult,
                       startRest: seq<RayCastResult>, endRest: seq<RayCastResult>)
    requires ReportsAngle(cast)
    requires startRay.angle <= endRay.angle && NeedsSubdivision(startRay, endRay)
    requires var edges := SubsegmentEdges(cast, curveAccuracy, startRay, endRay);
             (edges.startRay.Some? ==> startRest == []) &&
             (edges.endRay.Some? ==> Inside(cast, endRest, edges.endRay.value.angle, endRay.angle))
    ensures Inside(cast, Assemble(SubsegmentEdges(cast, curveAccuracy, startRay, endRay), startRest, endRest),
                   startRay.angle, endRay.angle)
  {
    var edges := SubsegmentEdges(cast, curveAccuracy, startRay, endRay);
    SubsegmentEdgesInside(cast, curveAccuracy, startRay, endRay);
    var startPart := if edges.startRay.Some? then [edges.startRay.value] + startRest else [];
    var endPart := if edges.endRay.Some? then [edges.endRay.value] + endRest else [];
    if edges.endRay.Some? {
      ConsInside(cast, edges.endRay.value, endRest, startRay.angle, endRay.angle);
    }
    var pivot := if edges.endRay.Some? then edges.endRay.value.angle else endRay.angle;
    JoinInside(cast, startPart, endPart, startRay.angle, pivot, endRay.angle);
  }

  lemma ConsInside(cast: Caster, x: RayCastResult, rest: seq<RayCastResult>, low: real, high: real)
    requires low < x.angle < high && x == cast(x.angle)
    requires Inside(cast, rest, x.angle, high)
    ensures Inside(cast, [x] + rest, low, high)
    ensures forall i :: 0 <= i < |[x] + rest| ==> x.angle <= ([x] + rest)[i].angle
  {
    var r := [x] + rest;
    forall i, j | 0 <= i < j < |r| ensures r[i].angle < r[j].angle {
      assert r[j] == rest[j - 1];
      if i > 0 {
        assert r[i] == rest[i - 1];
      }
    }
    assert forall i :: 0 < i < |r| ==> r[i] == rest[i - 1];
  }

  lemma JoinInside(cast: Caster, a: seq<RayCastResult>, b: seq<RayCastResult>, low: real, pivot: real, high: real)
    requires Inside(cast, a, low, high) && Inside(cast, b, low, high)
    requires forall i :: 0 <= i < |a| ==> a[i].angle < pivot
    requires forall i :: 0 <= i < |b| ==> pivot <= b[i].angle
    ensures Inside(cast, a + b, low, high)
  {
    forall i, j | 0 <= i < j < |a + b| ensures (a + b)[i].angle < (a + b)[j].angle {
      if j < |a| {
      } else if i < |a| {
        assert (a + b)[i] == a[i] && (a + b)[j] == b[j - |a|];
      } else {
        assert (a + b)[i] == b[i - |a|] && (a + b)[j] == b[j - |a|];
      }
    }
    forall i | 0 <= i < |a + b| ensures low < (a + b)[i].angle < high && (a + b)[i] == cast((a + b)[i].angle) {
      if i < |a| {
        assert (a + b)[i] == a[i];
      } else {
        assert (a + b)[i] == b[i - |a|];
      }
    }
  }

  lemma FloorStep(x: real, y: real)
    requires x + 1.0 <= y
    ensures x.Floor < y.Floor
  {
  }

  /** The sector left for the end side is narrower than the whole by at least 0.1 / 2^rounds
      degrees, which makes the recursion terminate. */
  lemma EndSideShrinks(cast: Caster, curveAccuracy: int, startRay: RayCastResult, endRay: RayCastResult)
    requires ReportsAngle(cast)
    requires startRay.angle <= endRay.angle
    requires NeedsSubdivision(startRay, endRay)
    requires SubsegmentEdges(cast, curveAccuracy, startRay, endRay).endRay.Some?
    ensures Units(curveAccuracy, SubsegmentEdges(cast, curveAccuracy, startRay, endRay).endRay.value, endRay)
          < Units(curveAccuracy, startRay, endRay)
  {
    var n := Rounds(curveAccuracy);
    var p := Pow2(n) as real;
    var init := Bracket(startRay.angle, endRay.angle, SegmentEdgeRays(None, None));
    BisectFacts(cast, startRay.obstacleHits, init, n);
    var b := Bisect(cast, startRay.obstacleHits, init, n);
    var e := b.edges.endRay.value;
    var w := endRay.angle - startRay.angle;
    assert e.angle == b.endAngle;
    // the end edge lies at least w / p after the start ray
    assert b.endAngle - b.startAngle == w / p;
    var w' := endRay.angle - e.angle;
    assert w' <= w - w / p;
    assert w' * 10.0 * p + 1.0 <= w * 10.0 * p by {
      assert w' * p <= w * p - w by {
        assert (w - w / p) * p == w * p - w;
        MulMonotonic(w', w - w / p, p);
      }
      assert w * 10.0 > 1.0;
    }
    UnitsOfWideSector(curveAccuracy, startRay, endRay);
    if NeedsSubdivision(e, endRay) {
      UnitsOfWideSector(curveAccuracy, e, endRay);
      FloorStep(w' * 10.0 * p, w * 10.0 * p);
    }
  }

  lemma MulMonotonic(x: real, y: real, p: real)
    requires x <= y && 0.0 <= p
    ensures x * p <= y * p
  {
  }

  /** The recursion on the start side never inserts anything: the start edge has the start ray's
      hit count, so that sector needs no subdivision. */
  lemma StartSideAddsNothing(cast: Caster, curveAccuracy: int, startRay: RayCastResult, endRay: RayCastResult)
    requires ReportsAngle(cast)
    requires startRay.angle < endRay.angle
    requires SubsegmentEdges(cast, curveAccuracy, startRay, endRay).startRay.Some?
    ensures var s := SubsegmentEdges(cast, curveAccuracy, startRay, endRay).startRay.value;
      startRay.angle < s.angle && GenerateSubsegments(cast, curveAccuracy, startRay, s) == []
  {
    SubsegmentEdgesInside(cast, curveAccuracy, startRay, endRay);
  }
}
