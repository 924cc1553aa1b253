/** The target lifecycle of `DetectTargets`, as values: the sightings of all rays are reduced to
    the nearest sighting per target, every sighted target is spotted or promoted to detected, and
    every tracked target that was not sighted is lost. The C# events become an appended trace. */
module TargetTracking {
  import opened RayCasting

  /** The three C# events, each with its target. */
  datatype TargetEvent = TargetSpotted(target: ObjectId) | TargetDetected(target: ObjectId) | TargetLost(target: ObjectId)

  /** Where a target stands: in neither list, in `_spottedTargets` or in `_detectedTargets`. */
  datatype Status = Untracked | Spotted | Detected

  /** The two target lists and the events fired so far. */
  datatype Tracking = Tracking(spotted: seq<ObjectId>, detected: seq<ObjectId>, events: seq<TargetEvent>)

  predicate NoDup(s: seq<ObjectId>) {
    forall i, j :: 0 <= i < j < |s| ==> s[i] != s[j]
  }

  /** Neither list repeats a target and no target is in both. */
  predicate WellFormed(t: Tracking) {
    NoDup(t.spotted) && NoDup(t.detected) && forall k :: k in t.spotted ==> k !in t.detected
  }

  function StatusOf(t: Tracking, k: ObjectId): Status {
    if k in t.spotted then Spotted else if k in t.detected then Detected else Untracked
  }

  /** `List.Remove`: drops the first occurrence of `x`, if there is one. */
  function RemoveFirst(s: seq<ObjectId>, x: ObjectId): (r: seq<ObjectId>)
    ensures x !in s ==> r == s
    ensures forall k :: k != x ==> (k in r <==> k in s)
    ensures NoDup(s) ==> NoDup(r) && x !in r
  {
    if s == [] then []
    else if s[0] == x then
      assert forall j :: 0 <= j < |s| - 1 ==> s[1..][j] == s[j + 1];
      s[1..]
    else
      var rest := RemoveFirst(s[1..], x);
      assert forall j :: 0 <= j < |s| - 1 ==> s[1..][j] == s[j + 1];
      assert NoDup(s) ==> s[0] !in s[1..];
      NoDupCons(s[0], rest);
      [s[0]] + rest
  }

  lemma NoDupCons(a: ObjectId, rest: seq<ObjectId>)
    ensures a !in rest && NoDup(rest) ==> NoDup([a] + rest)
  {
    if a !in rest && NoDup(rest) {
      forall i, j | 0 <= i < j < |[a] + rest| ensures ([a] + rest)[i] != ([a] + rest)[j] {
        if 0 < i {
          assert ([a] + rest)[i] == rest[i - 1];
        }
      }
    }
  }

  /** The targets of a list of sightings, in order. */
  function Targets(pairs: seq<Sighting>): (keys: seq<ObjectId>)
    ensures |keys| == |pairs|
    ensures forall i :: 0 <= i < |pairs| ==> keys[i] == pairs[i].target
  {
    seq(|pairs|, i requires 0 <= i < |pairs| => pairs[i].target)
  }

  /** `SelectMany` over the rays: the sightings of every ray, ray after ray. */
  function Flatten(rays: seq<RayCastResult>): (pairs: seq<Sighting>)
    ensures forall p :: p in pairs <==> exists i :: 0 <= i < |rays| && p in rays[i].discovered
  {
    if rays == [] then []
    else
      var init := rays[..|rays| - 1];
      var pairs := Flatten(init) + rays[|rays| - 1].discovered;
      assert forall i :: 0 <= i < |init| ==> init[i] == rays[i];
      pairs
  }

  /** The keys of `GroupBy`: every target once, in order of first appearance. */
  function GroupKeys(pairs: seq<Sighting>): (keys: seq<ObjectId>)
    ensures NoDup(keys)
    ensures forall k :: k in keys <==> k in Targets(pairs)
  {
    if pairs == [] then []
    else
      var init := pairs[..|pairs| - 1];
      var keys := GroupKeys(init);
      var k := pairs[|pairs| - 1].target;
      assert forall q :: q in Targets(pairs) <==> q in Targets(init) || q == k by {
        forall q | q in Targets(pairs) ensures q in Targets(init) || q == k {
          var i :| 0 <= i < |pairs| && Targets(pairs)[i] == q;
          if i < |init| {
            assert Targets(init)[i] == q;
          }
        }
        forall q | q in Targets(init) ensures q in Targets(pairs) {
          var i :| 0 <= i < |init| && Targets(init)[i] == q;
          assert Targets(pairs)[i] == q;
        }
        assert Targets(pairs)[|pairs| - 1] == k;
      }
      if k in keys then keys else keys + [k]
  }

  /** The distance kept for target `k`: the smallest distance at which any ray sighted it. */
  function NearestDistance(pairs: seq<Sighting>, k: ObjectId): (d: real)
    requires k in Targets(pairs)
    ensures Sighting(k, d) in pairs
    ensures forall p :: p in pairs && p.target == k ==> d <= p.distance
  {
    var init := pairs[..|pairs| - 1];
    var last := pairs[|pairs| - 1];
    assert pairs == init + [last];
    if k !in Targets(init) then
      assert forall p :: p in init ==> p.target != k by {
        forall p | p in init ensures p.target != k {
          var i :| 0 <= i < |init| && init[i] == p;
          assert Targets(init)[i] == p.target;
        }
      }
      assert forall i :: 0 <= i < |init| ==> Targets(init)[i] == Targets(pairs)[i];
      assert Targets(pairs) == Targets(init) + [last.target];
      last.distance
    else
      var before := NearestDistance(init, k);
      if last.target == k && last.distance < before then last.distance else before
  }

  /** `GroupBy(target).Select(group => group.OrderBy(distance).First())`: one sighting per target,
      in order of first appearance, at the target's nearest distance. */
  function Nearest(pairs: seq<Sighting>): (nearest: seq<Sighting>)
    ensures Targets(nearest) == GroupKeys(pairs)
    ensures NoDup(Targets(nearest))
    ensures forall k :: k in Targets(nearest) <==> k in Targets(pairs)
    ensures forall i :: 0 <= i < |nearest| ==> nearest[i] in pairs
    ensures forall i, p :: 0 <= i < |nearest| && p in pairs && p.target == nearest[i].target ==>
              nearest[i].distance <= p.distance
  {
    var keys := GroupKeys(pairs);
    seq(|keys|, i requires 0 <= i < |keys| => Sighting(keys[i], NearestDistance(pairs, keys[i])))
  }

  /** One pass of the discovery loop: a spotted target is promoted once the skin offset has reached
      it; a target in neither list is spotted. */
  function DiscoverStep(t: Tracking, s: Sighting, skinsOffset: real): Tracking {
    var k := s.target;
    if k in t.spotted then
      if skinsOffset >= s.distance then
        Tracking(RemoveFirst(t.spotted, k), t.detected + [k], t.events + [TargetDetected(k)])
      else t
    else if k !in t.detected then
      Tracking(t.spotted + [k], t.detected, t.events + [TargetSpotted(k)])
    else t
  }

  /** The discovery loop over the first `|s|` sightings. */
  function DiscoverAll(t: Tracking, s: seq<Sighting>, skinsOffset: real): Tracking
    decreases |s|
  {
    if s == [] then t else DiscoverStep(DiscoverAll(t, s[..|s| - 1], skinsOffset), s[|s| - 1], skinsOffset)
  }

  /** One pass of the loss loop: the target leaves whichever list holds it and is reported lost. */
  function LoseStep(t: Tracking, k: ObjectId): Tracking {
    if k in t.spotted then Tracking(RemoveFirst(t.spotted, k), t.detected, t.events + [TargetLost(k)])
    else if k in t.detected then Tracking(t.spotted, RemoveFirst(t.detected, k), t.events + [TargetLost(k)])
    else Tracking(t.spotted, t.detected, t.events + [TargetLost(k)])
  }

  /** The loss loop over the first `|lost|` targets. */
  function LoseAll(t: Tracking, lost: seq<ObjectId>): Tracking
    decreases |lost|
  {
    if lost == [] then t else LoseStep(LoseAll(t, lost[..|lost| - 1]), lost[|lost| - 1])
  }

  /** `Enumerable.Except`: the distinct elements of `xs` not in `ys`, in order of first appearance. */
  function Except(xs: seq<ObjectId>, ys: seq<ObjectId>): (r: seq<ObjectId>)
    ensures NoDup(r)
    ensures forall k :: k in r <==> k in xs && k !in ys
  {
    if xs == [] then []
    else
      var init := xs[..|xs| - 1];
      var x := xs[|xs| - 1];
      assert xs == init + [x];
      var r := Except(init, ys);
      if x in ys || x in r then r else r + [x]
  }

  /** The target lists and trace after one call of `DetectTargets` on the rays of a frame. */
  function Tick(t: Tracking, rays: seq<RayCastResult>, skinsOffset: real): Tracking {
    var discovered := Nearest(Flatten(rays));
    var found := DiscoverAll(t, discovered, skinsOffset);
    LoseAll(found, Except(found.spotted + found.detected, Targets(discovered)))
  }

  /** The events of a trace that concern target `k`. */
  function EventsAbout(events: seq<TargetEvent>, k: ObjectId): seq<TargetEvent>
    decreases |events|
  {
    if events == [] then []
    else
      var e := events[|events| - 1];
      EventsAbout(events[..|events| - 1], k) + (if e.target == k then [e] else [])
  }

  /** The reference behaviour for one target sighted at distance `d`: a new target is spotted, a
      spotted one is detected when the offset reaches it, a detected one stays. */
  function SightedStatus(st: Status, d: real, skinsOffset: real): Status {
    match st
    case Untracked => Spotted
    case Spotted => if skinsOffset >= d then Detected else Spotted
    case Detected => Detected
  }

  /** The events that the reference behaviour fires for a sighted target. */
  function SightedEvents(st: Status, d: real, skinsOffset: real, k: ObjectId): seq<TargetEvent> {
    match st
    case Untracked => [TargetSpotted(k)]
    case Spotted => if skinsOffset >= d then [TargetDetected(k)] else []
    case Detected => []
  }

  lemma AppendEventsAbout(events: seq<TargetEvent>, e: TargetEvent, k: ObjectId)
    ensures EventsAbout(events + [e], k) == EventsAbout(events, k) + (if e.target == k then [e] else [])
  {
    assert (events + [e])[..|events|] == events;
  }

  /** One discovery step keeps the lists well formed, moves its own target as the reference
      behaviour says and leaves every other target and its events alone. */
  lemma DiscoverStepFacts(t: Tracking, s: Sighting, skinsOffset: real, k: ObjectId)
    requires WellFormed(t)
    ensures WellFormed(DiscoverStep(t, s, skinsOffset))
    ensures s.target == k ==>
              StatusOf(DiscoverStep(t, s, skinsOffset), k) == SightedStatus(StatusOf(t, k), s.distance, skinsOffset) &&
              EventsAbout(DiscoverStep(t, s, skinsOffset).events, k) ==
                EventsAbout(t.events, k) + SightedEvents(StatusOf(t, k), s.distance, skinsOffset, k)
    ensures s.target != k ==>
              StatusOf(DiscoverStep(t, s, skinsOffset), k) == StatusOf(t, k) &&
              EventsAbout(DiscoverStep(t, s, skinsOffset).events, k) == EventsAbout(t.events, k)
  {
    var x := s.target;
    if x in t.spotted && skinsOffset >= s.distance {
      PromoteFacts(t, x, k);
    } else if x !in t.spotted && x !in t.detected {
      SpotFacts(t, x, k);
    }
  }

  /** Moving a spotted target to the detected list, with its event. */
  lemma PromoteFacts(t: Tracking, x: ObjectId, k: ObjectId)
    requires WellFormed(t) && x in t.spotted
    ensures var t' := Tracking(RemoveFirst(t.spotted, x), t.detected + [x], t.events + [TargetDetected(x)]);
            WellFormed(t') &&
            StatusOf(t', k) == (if x == k then Detected else StatusOf(t, k)) &&
            EventsAbout(t'.events, k) == EventsAbout(t.events, k) + (if x == k then [TargetDetected(k)] else [])
  {
    var t' := Tracking(RemoveFirst(t.spotted, x), t.detected + [x], t.events + [TargetDetected(x)]);
    AppendEventsAbout(t.events, TargetDetected(x), k);
    assert NoDup(t'.detected) by {
      forall i, j | 0 <= i < j < |t'.detected| ensures t'.detected[i] != t'.detected[j] {
        if j == |t.detected| {
          assert t'.detected[i] == t.detected[i];
        }
      }
    }
  }

  /** Adding an untracked target to the spotted list, with its event. */
  lemma SpotFacts(t: Tracking, x: ObjectId, k: ObjectId)
    requires WellFormed(t) && x !in t.spotted && x !in t.detected
    ensures var t' := Tracking(t.spotted + [x], t.detected, t.events + [TargetSpotted(x)]);
            WellFormed(t') &&
            StatusOf(t', k) == (if x == k then Spotted else StatusOf(t, k)) &&
            EventsAbout(t'.events, k) == EventsAbout(t.events, k) + (if x == k then [TargetSpotted(k)] else [])
  {
    var t' := Tracking(t.spotted + [x], t.detected, t.events + [TargetSpotted(x)]);
    AppendEventsAbout(t.events, TargetSpotted(x), k);
    assert NoDup(t'.spotted) by {
      forall i, j | 0 <= i < j < |t'.spotted| ensures t'.spotted[i] != t'.spotted[j] {
        if j == |t.spotted| {
          assert t'.spotted[i] == t.spotted[i];
        }
      }
    }
  }

  /** The discovery loop, target by target: a target sighted (once) at `s[j]` moves as the reference
      behaviour says, with exactly the reference events; an unsighted one is untouched. */
  lemma {:induction false} DiscoverAllFacts(t: Tracking, s: seq<Sighting>, skinsOffset: real, k: ObjectId)
    requires WellFormed(t)
    requires NoDup(Targets(s))
    ensures WellFormed(DiscoverAll(t, s, skinsOffset))
    ensures forall j :: 0 <= j < |s| && s[j].target == k ==>
              StatusOf(DiscoverAll(t, s, skinsOffset), k) == SightedStatus(StatusOf(t, k), s[j].distance, skinsOffset) &&
              EventsAbout(DiscoverAll(t, s, skinsOffset).events, k) ==
                EventsAbout(t.events, k) + SightedEvents(StatusOf(t, k), s[j].distance, skinsOffset, k)
    ensures k !in Targets(s) ==>
              StatusOf(DiscoverAll(t, s, skinsOffset), k) == StatusOf(t, k) &&
              EventsAbout(DiscoverAll(t, s, skinsOffset).events, k) == EventsAbout(t.events, k)
    decreases |s|
  {
    if s != [] {
      var init := s[..|s| - 1];
      var last := s[|s| - 1];
      TargetsSnoc(s);
      DiscoverAllFacts(t, init, skinsOffset, k);
      var mid := DiscoverAll(t, init, skinsOffset);
      DiscoverStepFacts(mid, last, skinsOffset, k);
      assert DiscoverAll(t, s, skinsOffset) == DiscoverStep(mid, last, skinsOffset);
      forall j | 0 <= j < |s| - 1 ensures init[j] == s[j] {
      }
    }
  }

  /** The targets of a non-empty sighting list are those of its prefix followed by the last one,
      which (without duplicates) the prefix does not repeat. */
  lemma TargetsSnoc(s: seq<Sighting>)
    requires s != [] && NoDup(Targets(s))
    ensures Targets(s) == Targets(s[..|s| - 1]) + [s[|s| - 1].target]
    ensures NoDup(Targets(s[..|s| - 1]))
    ensures forall j :: 0 <= j < |s| - 1 ==> s[j].target != s[|s| - 1].target
  {
    var init := s[..|s| - 1];
    assert Targets(s) == Targets(init) + [s[|s| - 1].target];
    forall j | 0 <= j < |s| - 1 ensures s[j].target != s[|s| - 1].target {
      assert Targets(s)[j] != Targets(s)[|s| - 1];
    }
  }

  /** One loss step takes its own target out of both lists and reports it once; every other target
      is untouched. */
  lemma LoseStepFacts(t: Tracking, x: ObjectId, k: ObjectId)
    requires WellFormed(t)
    ensures WellFormed(LoseStep(t, x))
    ensures x == k ==> StatusOf(LoseStep(t, x), k) == Untracked &&
                       EventsAbout(LoseStep(t, x).events, k) == EventsAbout(t.events, k) + [TargetLost(k)]
    ensures x != k ==> StatusOf(LoseStep(t, x), k) == StatusOf(t, k) &&
                       EventsAbout(LoseStep(t, x).events, k) == EventsAbout(t.events, k)
  {
    AppendEventsAbout(t.events, TargetLost(x), k);
  }

  /** The loss loop, target by target: every listed target ends untracked with exactly one loss
      event; every other target is untouched. */
  lemma {:induction false} LoseAllFacts(t: Tracking, lost: seq<ObjectId>, k: ObjectId)
    requires WellFormed(t)
    requires NoDup(lost)
    ensures WellFormed(LoseAll(t, lost))
    ensures k in lost ==> StatusOf(LoseAll(t, lost), k) == Untracked &&
                          EventsAbout(LoseAll(t, lost).events, k) == EventsAbout(t.events, k) + [TargetLost(k)]
    ensures k !in lost ==> StatusOf(LoseAll(t, lost), k) == StatusOf(t, k) &&
                           EventsAbout(LoseAll(t, lost).events, k) == EventsAbout(t.events, k)
    decreases |lost|
  {
    if lost != [] {
      var init := lost[..|lost| - 1];
      var x := lost[|lost| - 1];
      assert lost == init + [x];
      LoseAllFacts(t, init, k);
      LoseStepFacts(LoseAll(t, init), x, k);
      if x == k {
        assert forall i :: 0 <= i < |init| ==> init[i] == lost[i];
      }
    }
  }

  /** One tick, target by target. A target some ray sighted moves as the reference behaviour says
      at its nearest distance, firing exactly the reference events (so a new target is spotted
      with one event and is not promoted in the same tick, and a spotted one is detected with one
      event exactly when the skin offset has reached it). A tracked target no ray sighted ends
      untracked with exactly one loss event; an untracked one stays untracked and silent. */
  lemma TickPerTarget(t: Tracking, rays: seq<RayCastResult>, skinsOffset: real, k: ObjectId)
    requires WellFormed(t)
    ensures WellFormed(Tick(t, rays, skinsOffset))
    ensures k in Targets(Flatten(rays)) ==>
              var d := NearestDistance(Flatten(rays), k);
              StatusOf(Tick(t, rays, skinsOffset), k) == SightedStatus(StatusOf(t, k), d, skinsOffset) &&
              EventsAbout(Tick(t, rays, skinsOffset).events, k) ==
                EventsAbout(t.events, k) + SightedEvents(StatusOf(t, k), d, skinsOffset, k)
    ensures k !in Targets(Flatten(rays)) ==>
              StatusOf(Tick(t, rays, skinsOffset), k) == Untracked &&
              EventsAbout(Tick(t, rays, skinsOffset).events, k) ==
                EventsAbout(t.events, k) + (if StatusOf(t, k) == Untracked then [] else [TargetLost(k)])
  {
    var pairs := Flatten(rays);
    var discovered := Nearest(pairs);
    var found := DiscoverAll(t, discovered, skinsOffset);
    DiscoverAllFacts(t, discovered, skinsOffset, k);
    var lost := Except(found.spotted + found.detected, Targets(discovered));
    LoseAllFacts(found, lost, k);
    if k in Targets(pairs) {
      assert k in Targets(discovered);
      var j :| 0 <= j < |discovered| && Targets(discovered)[j] == k;
      assert discovered[j] == Sighting(k, NearestDistance(pairs, k));
    }
  }

  /** A target is among the flattened sightings exactly when some ray sighted it. */
  lemma {:induction false} TargetsOfFlatten(rays: seq<RayCastResult>, k: ObjectId)
    ensures k in Targets(Flatten(rays)) <==> exists i :: 0 <= i < |rays| && k in Targets(rays[i].discovered)
  {
    var pairs := Flatten(rays);
    if k in Targets(pairs) {
      var n :| 0 <= n < |pairs| && Targets(pairs)[n] == k;
      assert pairs[n] in pairs;
      var i :| 0 <= i < |rays| && pairs[n] in rays[i].discovered;
      var m :| 0 <= m < |rays[i].discovered| && rays[i].discovered[m] == pairs[n];
      assert Targets(rays[i].discovered)[m] == k;
    }
    if exists i :: 0 <= i < |rays| && k in Targets(rays[i].discovered) {
      var i :| 0 <= i < |rays| && k in Targets(rays[i].discovered);
      var m :| 0 <= m < |rays[i].discovered| && Targets(rays[i].discovered)[m] == k;
      var p := rays[i].discovered[m];
      assert p in pairs;
      var n :| 0 <= n < |pairs| && pairs[n] == p;
      assert Targets(pairs)[n] == k;
    }
  }

  /** After a tick exactly the targets some ray sighted are tracked, and the lists stay well formed. */
  lemma TickTracksExactlySighted(t: Tracking, rays: seq<RayCastResult>, skinsOffset: real)
    requires WellFormed(t)
    ensures WellFormed(Tick(t, rays, skinsOffset))
    ensures forall k :: k in Tick(t, rays, skinsOffset).spotted || k in Tick(t, rays, skinsOffset).detected <==>
              k in Targets(Flatten(rays))
  {
    TickPerTarget(t, rays, skinsOffset, 0);
    forall k ensures k in Tick(t, rays, skinsOffset).spotted || k in Tick(t, rays, skinsOffset).detected <==>
                     k in Targets(Flatten(rays)) {
      TickPerTarget(t, rays, skinsOffset, k);
    }
  }
}
