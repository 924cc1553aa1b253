/** One view ray (`CastViewRay`): the hits the physics query reports along the ray are walked
    nearest first; every obstacle shortens the ray according to the transparency of its layer,
    every target is recorded with its distance, and the walk stops at the first hit the shortened
    ray no longer reaches. */
module RayCasting {
  import opened LayerMasks

  /** Identity of a scene object (a `GameObject`). */
  type ObjectId = nat

  /** A Unity layer index, `GameObject.layer`. */
  type LayerIndex = k: int | 0 <= k < 32

  /** One hit reported by the physics query: its distance from the origin, the object hit, the
      object's layer, and whether it is the owner of the field of view or one of the owner's
      children (`hit.transform.gameObject == transform.parent.gameObject ||
      hit.transform.parent == transform.parent`). */
  datatype Hit = Hit(distance: real, obj: ObjectId, layer: LayerIndex, ownHierarchy: bool)

  /** A target met by a ray, with its distance from the origin. */
  datatype Sighting = Sighting(target: ObjectId, distance: real)

  /** One row of the transparency table: a layer mask and a transparency percentage. */
  datatype LayersEntry = LayersEntry(mask: int, transparency: int)

  /** What a view ray reports (`RayCastResult`; the world-space end point is left out). The
      sightings are kept in insertion order, the order the dictionary enumerates them in. */
  datatype RayCastResult = RayCastResult(obstacleHits: nat, discovered: seq<Sighting>, length: real, angle: real)

  /** The settings of the component a ray depends on. */
  datatype RayConfig = RayConfig(viewRadius: real, targetsLayer: int, layers: seq<LayersEntry>)

  /** The inspector restricts transparencies to the range 0..100 (`[Range(0, 100)]`). */
  predicate TransparenciesInRange(layers: seq<LayersEntry>) {
    forall i :: 0 <= i < |layers| ==> 0 <= layers[i].transparency <= 100
  }

  // ---------------------------------------------------------------------------------------------
  // Stable ordering (`OrderBy`)
  // ---------------------------------------------------------------------------------------------

  predicate SortedBy<T>(s: seq<T>, key: T -> real) {
    forall i, j :: 0 <= i < j < |s| ==> key(s[i]) <= key(s[j])
  }

  /** Inserts `x` in front of the first element whose key is not smaller. */
  function InsertBy<T>(x: T, s: seq<T>, key: T -> real): (r: seq<T>)
    ensures multiset(r) == multiset(s) + multiset{x}
  {
    if s == [] || key(x) <= key(s[0]) then [x] + s
    else
      assert s == [s[0]] + s[1..];
      [s[0]] + InsertBy(x, s[1..], key)
  }

  /** `OrderBy(key)`: a stable sort, built by insertion. */
  function SortBy<T>(s: seq<T>, key: T -> real): (r: seq<T>)
    ensures multiset(r) == multiset(s)
  {
    if s == [] then []
    else
      assert s == [s[0]] + s[1..];
      InsertBy(s[0], SortBy(s[1..], key), key)
  }

  lemma {:induction false} InsertBySorted<T>(x: T, s: seq<T>, key: T -> real)
    requires SortedBy(s, key)
    ensures SortedBy(InsertBy(x, s, key), key)
  {
    if s != [] && key(s[0]) < key(x) {
      var rest := InsertBy(x, s[1..], key);
      InsertBySorted(x, s[1..], key);
      InsertByMembers(x, s[1..], key);
      HeadIsLeast(s, key);
      var r := [s[0]] + rest;
      forall k | 0 <= k < |rest| ensures key(s[0]) <= key(rest[k]) {
        assert rest[k] in rest;
      }
      forall i, j | 0 <= i < j < |r| ensures key(r[i]) <= key(r[j]) {
        if i > 0 {
          assert r[i] == rest[i - 1] && r[j] == rest[j - 1];
        } else {
          assert r[j] == rest[j - 1];
        }
      }
    }
  }

  lemma InsertByMembers<T>(x: T, s: seq<T>, key: T -> real)
    ensures forall y :: y in InsertBy(x, s, key) ==> y == x || y in s
  {
    forall y | y in InsertBy(x, s, key) ensures y == x || y in s {
      assert y in multiset(InsertBy(x, s, key));
      assert y == x || y in multiset(s);
    }
  }

  lemma HeadIsLeast<T>(s: seq<T>, key: T -> real)
    requires s != [] && SortedBy(s, key)
    ensures forall y :: y in s ==> key(s[0]) <= key(y)
  {
    forall y | y in s ensures key(s[0]) <= key(y) {
      var m :| 0 <= m < |s| && s[m] == y;
      if m > 0 {
        assert key(s[0]) <= key(s[m]);
      }
    }
  }

  /** The ordering is sorted and a permutation of its input. */
  lemma {:induction false} SortBySorted<T>(s: seq<T>, key: T -> real)
    ensures SortedBy(SortBy(s, key), key)
    ensures multiset(SortBy(s, key)) == multiset(s)
  {
    if s != [] {
      SortBySorted(s[1..], key);
      InsertBySorted(s[0], SortBy(s[1..], key), key);
    }
  }

  /** The elements of `s` whose key is `v`, in order. */
  function WithKey<T>(s: seq<T>, key: T -> real, v: real): seq<T> {
    if s == [] then []
    else (if key(s[0]) == v then [s[0]] else []) + WithKey(s[1..], key, v)
  }

  lemma {:induction false} InsertByWithKey<T>(x: T, s: seq<T>, key: T -> real, v: real)
    ensures WithKey(InsertBy(x, s, key), key, v) == (if key(x) == v then [x] else []) + WithKey(s, key, v)
  {
    if s != [] && key(s[0]) < key(x) {
      InsertByWithKey(x, s[1..], key, v);
      var r := InsertBy(x, s, key);
      assert r[0] == s[0] && r[1..] == InsertBy(x, s[1..], key);
    } else {
      var r := InsertBy(x, s, key);
      assert r[0] == x && r[1..] == s;
    }
  }

  /** The ordering is stable: elements with equal keys keep their relative order. */
  lemma {:induction false} SortByStable<T>(s: seq<T>, key: T -> real, v: real)
    ensures WithKey(SortBy(s, key), key, v) == WithKey(s, key, v)
  {
    if s != [] {
      SortByStable(s[1..], key, v);
      InsertByWithKey(s[0], SortBy(s[1..], key), key, v);
    }
  }

  function HitDistance(h: Hit): real {
    h.distance
  }

  function EntryMask(e: LayersEntry): real {
    e.mask as real
  }

  /** `hits.OrderBy(hit => hit.distance)`. */
  function ByDistance(hits: seq<Hit>): seq<Hit> {
    SortBy(hits, HitDistance)
  }

  /** `layersConfiguration.OrderBy(entry => entry.Layer.value)`. */
  function ByMask(layers: seq<LayersEntry>): seq<LayersEntry> {
    SortBy(layers, EntryMask)
  }

  // ---------------------------------------------------------------------------------------------
  // Layer tests
  // ---------------------------------------------------------------------------------------------

  /** `targetsLayer == (targetsLayer | 2^layer)`. */
  predicate IsTargetLayer(cfg: RayConfig, layer: LayerIndex) {
    HasLayer(cfg.targetsLayer, layer)
  }

  /** `joinedLayersMask == (joinedLayersMask | 2^layer)` where the joined mask is the bitwise OR
      of every entry's mask: the layer's bit is set in some entry's mask. */
  predicate IsObstacleLayer(layers: seq<LayersEntry>, layer: LayerIndex) {
    exists i :: 0 <= i < |layers| && HasLayer(layers[i].mask, layer)
  }

  /** The transparency scan over entries in ascending mask order: the transparency of the last
      entry whose mask matches positively, or 0 if none does. */
  function LastMatch(sorted: seq<LayersEntry>, layer: LayerIndex): int {
    if sorted == [] then 0
    else if MatchesPositively(sorted[|sorted| - 1].mask, layer) then sorted[|sorted| - 1].transparency
    else LastMatch(sorted[..|sorted| - 1], layer)
  }

  /** The transparency applied to an obstacle on `layer`. */
  function Transparency(layers: seq<LayersEntry>, layer: LayerIndex): int {
    LastMatch(ByMask(layers), layer)
  }

  lemma {:induction false} LastMatchFacts(sorted: seq<LayersEntry>, layer: LayerIndex)
    ensures (forall i :: 0 <= i < |sorted| ==> !MatchesPositively(sorted[i].mask, layer)) ==>
              LastMatch(sorted, layer) == 0
    ensures (exists i :: 0 <= i < |sorted| && MatchesPositively(sorted[i].mask, layer)) ==>
              exists k :: 0 <= k < |sorted| && MatchesPositively(sorted[k].mask, layer) &&
                LastMatch(sorted, layer) == sorted[k].transparency &&
                forall i :: k < i < |sorted| ==> !MatchesPositively(sorted[i].mask, layer)
  {
    if sorted != [] {
      var n := |sorted| - 1;
      LastMatchFacts(sorted[..n], layer);
      assert forall i :: 0 <= i < n ==> sorted[..n][i] == sorted[i];
    }
  }

  /** Over entries in ascending mask order, the scan yields the transparency of a matching entry
      whose mask is at least that of every matching entry. */
  lemma LastMatchLargest(sorted: seq<LayersEntry>, layer: LayerIndex)
    requires SortedBy(sorted, EntryMask)
    requires exists i :: 0 <= i < |sorted| && MatchesPositively(sorted[i].mask, layer)
    ensures exists e :: e in sorted && MatchesPositively(e.mask, layer) &&
              LastMatch(sorted, layer) == e.transparency &&
              forall e' :: e' in sorted && MatchesPositively(e'.mask, layer) ==> e'.mask <= e.mask
  {
    LastMatchFacts(sorted, layer);
    var k :| 0 <= k < |sorted| && MatchesPositively(sorted[k].mask, layer) &&
      LastMatch(sorted, layer) == sorted[k].transparency &&
      forall i :: k < i < |sorted| ==> !MatchesPositively(sorted[i].mask, layer);
    forall e' | e' in sorted && MatchesPositively(e'.mask, layer) ensures e'.mask <= sorted[k].mask {
      var i :| 0 <= i < |sorted| && sorted[i] == e';
      if i < k {
        assert EntryMask(sorted[i]) <= EntryMask(sorted[k]);
      }
    }
  }

  lemma SameElements<T>(s: seq<T>, t: seq<T>)
    requires multiset(s) == multiset(t)
    ensures forall x :: x in s <==> x in t
  {
    forall x ensures x in s <==> x in t {
      assert x in s <==> x in multiset(s);
      assert x in t <==> x in multiset(t);
    }
  }

  /** The transparency of an obstacle layer is that of the matching entry with the largest mask,
      so a broad entry such as "Everything" (-1) only sets a default that narrower (positive)
      entries override; with no matching entry it is 0, a fully opaque obstacle. Layer 31 never
      matches, see `MatchesPositively`. */
  lemma TransparencyOfLargestMatchingMask(layers: seq<LayersEntry>, layer: LayerIndex)
    ensures (forall e :: e in layers ==> !MatchesPositively(e.mask, layer)) ==> Transparency(layers, layer) == 0
    ensures (exists e :: e in layers && MatchesPositively(e.mask, layer)) ==>
              exists e :: e in layers && MatchesPositively(e.mask, layer) &&
                Transparency(layers, layer) == e.transparency &&
                forall e' :: e' in layers && MatchesPositively(e'.mask, layer) ==> e'.mask <= e.mask
  {
    var sorted := ByMask(layers);
    SortBySorted(layers, EntryMask);
    SameElements(layers, sorted);
    if e0 :| e0 in layers && MatchesPositively(e0.mask, layer) {
      TransparencyMatched(layers, sorted, layer, e0);
    } else {
      LastMatchFacts(sorted, layer);
      forall i | 0 <= i < |sorted| ensures !MatchesPositively(sorted[i].mask, layer) {
        assert sorted[i] in layers;
      }
    }
  }

  lemma TransparencyMatched(layers: seq<LayersEntry>, sorted: seq<LayersEntry>, layer: LayerIndex, e0: LayersEntry)
    requires sorted == ByMask(layers) && SortedBy(sorted, EntryMask)
    requires forall x :: x in layers <==> x in sorted
    requires e0 in layers && MatchesPositively(e0.mask, layer)
    ensures exists e :: e in layers && MatchesPositively(e.mask, layer) &&
              Transparency(layers, layer) == e.transparency &&
              forall e' :: e' in layers && MatchesPositively(e'.mask, layer) ==> e'.mask <= e.mask
  {
    var i0 :| 0 <= i0 < |sorted| && sorted[i0] == e0;
    LastMatchLargest(sorted, layer);
    var e :| e in sorted && MatchesPositively(e.mask, layer) &&
      LastMatch(sorted, layer) == e.transparency &&
      forall e' :: e' in sorted && MatchesPositively(e'.mask, layer) ==> e'.mask <= e.mask;
    assert e in layers;
  }

  /** With every transparency in 0..100, so is the one applied. */
  lemma TransparencyInRange(layers: seq<LayersEntry>, layer: LayerIndex)
    requires TransparenciesInRange(layers)
    ensures 0 <= Transparency(layers, layer) <= 100
  {
    TransparencyOfLargestMatchingMask(layers, layer);
  }

  // ---------------------------------------------------------------------------------------------
  // Walking the hits
  // ---------------------------------------------------------------------------------------------

  /** The ray length after an obstacle at `distance`: the part of the ray behind the obstacle
      loses `(100 - transparency)` percent. */
  function Shorten(length: real, distance: real, transparency: int): real {
    length - (length - distance) * (100 - transparency) as real / 100.0
  }

  /** The part behind the obstacle keeps `transparency` percent: the new length lies between the
      obstacle and the old length, at the obstacle when opaque and unchanged when transparent. */
  lemma ShortenBounds(length: real, distance: real, transparency: int)
    requires distance <= length
    requires 0 <= transparency <= 100
    ensures Shorten(length, distance, transparency) == distance + (length - distance) * transparency as real / 100.0
    ensures distance <= Shorten(length, distance, transparency) <= length
    ensures transparency == 0 ==> Shorten(length, distance, transparency) == distance
    ensures transparency == 100 ==> Shorten(length, distance, transparency) == length
  {
    var rest := length - distance;
    var t := transparency as real;
    var kept := rest * t / 100.0;
    assert rest * (100.0 - t) / 100.0 == rest - kept;
    assert 0.0 <= rest * t by {
      assert 0.0 <= rest && 0.0 <= t;
    }
    assert rest * t <= rest * 100.0 by {
      assert rest * 100.0 - rest * t == rest * (100.0 - t);
      assert 0.0 <= rest * (100.0 - t);
    }
    assert 0.0 <= kept <= rest;
    assert Shorten(length, distance, transparency) == distance + kept;
  }

  /** The running state of the walk: the ray length so far, `realHitsCount` and the targets
      dictionary. */
  datatype RayState = RayState(length: real, obstacleHits: nat, discovered: seq<Sighting>)

  /** Processing one reached hit. Hits on the owner's hierarchy are skipped; any other hit
      counts, is recorded when its layer is a target layer and shortens the ray when its layer is
      an obstacle layer. */
  function Step(cfg: RayConfig, st: RayState, h: Hit): RayState {
    if h.ownHierarchy then st
    else
      var discovered := if IsTargetLayer(cfg, h.layer) then st.discovered + [Sighting(h.obj, h.distance)] else st.discovered;
      var length := if IsObstacleLayer(cfg.layers, h.layer)
        then Shorten(st.length, h.distance, Transparency(cfg.layers, h.layer))
        else st.length;
      RayState(length, st.obstacleHits + 1, discovered)
  }

  /** The walk over the hits, nearest first, leaving at the first hit beyond the current length. */
  function Walk(cfg: RayConfig, st: RayState, hits: seq<Hit>): RayState
    decreases |hits|
  {
    if hits == [] then st
    else if st.length < hits[0].distance then st
    else Walk(cfg, Step(cfg, st, hits[0]), hits[1..])
  }

  /** The ray at `angle` given the hits the physics query reports for it. */
  function ViewRay(cfg: RayConfig, angle: real, hits: seq<Hit>): (r: RayCastResult)
    ensures r.angle == angle
  {
    if hits == [] then RayCastResult(0, [], cfg.viewRadius, angle)
    else
      var st := Walk(cfg, RayState(cfg.viewRadius, 0, []), ByDistance(hits));
      RayCastResult(st.obstacleHits, st.discovered, st.length, angle)
  }

  /** The hits within `length` that are not on the owner's hierarchy. */
  function CountedWithin(hits: seq<Hit>, length: real): nat {
    if hits == [] then 0
    else (if !hits[0].ownHierarchy && hits[0].distance <= length then 1 else 0) + CountedWithin(hits[1..], length)
  }

  /** The sightings of the target hits within `length` that are not on the owner's hierarchy. */
  function SightingsWithin(cfg: RayConfig, hits: seq<Hit>, length: real): seq<Sighting> {
    if hits == [] then []
    else
      var h := hits[0];
      (if !h.ownHierarchy && h.distance <= length && IsTargetLayer(cfg, h.layer)
        then [Sighting(h.obj, h.distance)] else []) + SightingsWithin(cfg, hits[1..], length)
  }

  predicate NonNegativeDistances(hits: seq<Hit>) {
    forall i :: 0 <= i < |hits| ==> 0.0 <= hits[i].distance
  }

  lemma {:induction false} NothingWithin(cfg: RayConfig, hits: seq<Hit>, length: real)
    requires forall i :: 0 <= i < |hits| ==> length < hits[i].distance
    ensures CountedWithin(hits, length) == 0
    ensures SightingsWithin(cfg, hits, length) == []
  {
    if hits != [] {
      NothingWithin(cfg, hits[1..], length);
    }
  }

  /** A processed hit leaves the ray no longer than before and reaching at least the hit. */
  lemma StepBounds(cfg: RayConfig, st: RayState, h: Hit)
    requires TransparenciesInRange(cfg.layers)
    requires h.distance <= st.length
    ensures h.distance <= Step(cfg, st, h).length <= st.length
  {
    if !h.ownHierarchy && IsObstacleLayer(cfg.layers, h.layer) {
      TransparencyInRange(cfg.layers, h.layer);
      ShortenBounds(st.length, h.distance, Transparency(cfg.layers, h.layer));
    }
  }

  /** The walk only shortens the ray, and never below a hit it processed. */
  lemma {:induction false} WalkLength(cfg: RayConfig, st: RayState, hits: seq<Hit>)
    decreases |hits|
    requires SortedBy(hits, HitDistance)
    requires TransparenciesInRange(cfg.layers)
    ensures Walk(cfg, st, hits).length <= st.length
    ensures hits != [] && hits[0].distance <= st.length ==> hits[0].distance <= Walk(cfg, st, hits).length
  {
    if hits != [] && hits[0].distance <= st.length {
      var h := hits[0];
      var st' := Step(cfg, st, h);
      StepBounds(cfg, st, h);
      var rest := hits[1..];
      WalkLength(cfg, st', rest);
      if rest != [] {
        assert h.distance <= rest[0].distance;
      }
    }
  }

  /** The hits the walk counted and recorded are exactly those within the final length. */
  lemma {:induction false} WalkFacts(cfg: RayConfig, st: RayState, hits: seq<Hit>)
    decreases |hits|
    requires SortedBy(hits, HitDistance)
    requires TransparenciesInRange(cfg.layers)
    ensures Walk(cfg, st, hits).obstacleHits == st.obstacleHits + CountedWithin(hits, Walk(cfg, st, hits).length)
    ensures Walk(cfg, st, hits).discovered == st.discovered + SightingsWithin(cfg, hits, Walk(cfg, st, hits).length)
  {
    if hits == [] {
    } else if st.length < hits[0].distance {
      NothingWithin(cfg, hits, st.length);
    } else {
      var h := hits[0];
      var rest := hits[1..];
      var st' := Step(cfg, st, h);
      var final := Walk(cfg, st', rest);
      assert Walk(cfg, st, hits) == final;
      WalkLength(cfg, st, hits);
      assert SortedBy(rest, HitDistance) by {
        forall i, j | 0 <= i < j < |rest| ensures HitDistance(rest[i]) <= HitDistance(rest[j]) {
          assert rest[i] == hits[i + 1] && rest[j] == hits[j + 1];
        }
      }
      WalkFacts(cfg, st', rest);
      var seen: seq<Sighting> := if !h.ownHierarchy && IsTargetLayer(cfg, h.layer) then [Sighting(h.obj, h.distance)] else [];
      assert st'.discovered == st.discovered + seen;
      assert SightingsWithin(cfg, hits, final.length) == seen + SightingsWithin(cfg, rest, final.length);
      assert final.discovered == st.discovered + seen + SightingsWithin(cfg, rest, final.length);
    }
  }

  /** A ray never reaches past the view radius, never has a negative length, and counts and
      records exactly the hits (nearest first) within its final length that are not on the
      owner's hierarchy. */
  lemma ViewRayReach(cfg: RayConfig, angle: real, hits: seq<Hit>)
    requires 0.0 <= cfg.viewRadius
    requires TransparenciesInRange(cfg.layers)
    requires NonNegativeDistances(hits)
    ensures 0.0 <= ViewRay(cfg, angle, hits).length <= cfg.viewRadius
    ensures ViewRay(cfg, angle, hits).obstacleHits == CountedWithin(ByDistance(hits), ViewRay(cfg, angle, hits).length)
    ensures ViewRay(cfg, angle, hits).discovered == SightingsWithin(cfg, ByDistance(hits), ViewRay(cfg, angle, hits).length)
  {
    if hits != [] {
      var sorted := ByDistance(hits);
      SortBySorted(hits, HitDistance);
      WalkLength(cfg, RayState(cfg.viewRadius, 0, []), sorted);
      WalkFacts(cfg, RayState(cfg.viewRadius, 0, []), sorted);
      var r := ViewRay(cfg, angle, hits);
      assert sorted[0] in multiset(hits);
      if sorted[0].distance <= cfg.viewRadius {
        assert 0.0 <= sorted[0].distance <= r.length;
      } else {
        assert r.length == cfg.viewRadius;
      }
    }
  }

  /** With no hit at all the ray has the full view radius, no counted hit and no sighting. */
  lemma NoHitsFullRadius(cfg: RayConfig, angle: real)
    ensures ViewRay(cfg, angle, []) == RayCastResult(0, [], cfg.viewRadius, angle)
  {
  }

  /** A ray that meets no obstacle layer keeps the full view radius. */
  lemma {:induction false} WalkWithoutObstacles(cfg: RayConfig, st: RayState, hits: seq<Hit>)
    decreases |hits|
    requires forall i :: 0 <= i < |hits| ==> !IsObstacleLayer(cfg.layers, hits[i].layer)
    ensures Walk(cfg, st, hits).length == st.length
  {
    if hits != [] && hits[0].distance <= st.length {
      WalkWithoutObstacles(cfg, Step(cfg, st, hits[0]), hits[1..]);
    }
  }

  /** An obstacle whose layer the table does not match is opaque: the ray ends at the obstacle. */
  lemma OpaqueObstacleStopsRay(cfg: RayConfig, angle: real, h: Hit)
    requires !h.ownHierarchy && 0.0 <= h.distance <= cfg.viewRadius
    requires IsObstacleLayer(cfg.layers, h.layer)
    requires forall e :: e in cfg.layers ==> !MatchesPositively(e.mask, h.layer)
    ensures ViewRay(cfg, angle, [h]).length == h.distance
    ensures ViewRay(cfg, angle, [h]).obstacleHits == 1
  {
    TransparencyOfLargestMatchingMask(cfg.layers, h.layer);
    var st0 := RayState(cfg.viewRadius, 0, []);
    assert ByDistance([h]) == [h];
    assert Walk(cfg, st0, [h]) == Walk(cfg, Step(cfg, st0, h), []);
    assert Shorten(cfg.viewRadius, h.distance, 0) == h.distance;
  }

  /** A half-transparent obstacle at distance 1 on a ray of radius 3 leaves a ray of length 2. */
  lemma HalfTransparentObstacle(obj: ObjectId, layer: LayerIndex)
    requires layer < 31
    ensures ViewRay(RayConfig(3.0, 0, [LayersEntry(-1, 50)]), 0.0, [Hit(1.0, obj, layer, false)]).length == 2.0
  {
    var cfg := RayConfig(3.0, 0, [LayersEntry(-1, 50)]);
    var h := Hit(1.0, obj, layer, false);
    EverythingHasEveryLayer(layer);
    assert HasLayer(cfg.layers[0].mask, layer);
    assert IsObstacleLayer(cfg.layers, layer);
    TransparencyOfLargestMatchingMask(cfg.layers, layer);
    var st0 := RayState(3.0, 0, []);
    assert ByDistance([h]) == [h];
    assert Transparency(cfg.layers, layer) == 50;
    assert Walk(cfg, st0, [h]) == Walk(cfg, Step(cfg, st0, h), []);
    assert Shorten(3.0, 1.0, 50) == 2.0;
  }

  // ---------------------------------------------------------------------------------------------
  // The method
  // ---------------------------------------------------------------------------------------------

  /** The scan over the entries in ascending mask order inside `CastViewRay`. */
  method ScanTransparency(transparencyConfiguration: seq<LayersEntry>, layer: LayerIndex) returns (layerTransparency: int)
    ensures layerTransparency == LastMatch(transparencyConfiguration, layer)
  {
    layerTransparency := 0;
    for j := 0 to |transparencyConfiguration|
      invariant layerTransparency == LastMatch(transparencyConfiguration[..j], layer)
    {
      var entry := transparencyConfiguration[j];
      assert transparencyConfiguration[..j + 1][..j] == transparencyConfiguration[..j];
      if MatchesPositively(entry.mask, layer) {
        layerTransparency := entry.transparency;
      }
    }
    assert transparencyConfiguration[..|transparencyConfiguration|] == transparencyConfiguration;
  }

  /** A reached hit is processed and the walk goes on with the rest. */
  lemma WalkUnfold(cfg: RayConfig, st: RayState, hits: seq<Hit>, i: nat)
    requires i < |hits| && hits[i].distance <= st.length
    ensures Walk(cfg, st, hits[i..]) == Walk(cfg, Step(cfg, st, hits[i]), hits[i + 1..])
  {
    assert hits[i..][0] == hits[i] && hits[i..][1..] == hits[i + 1..];
  }

  /** The walk is over once the hits are used up or the next one lies beyond the ray. */
  lemma WalkStops(cfg: RayConfig, st: RayState, hits: seq<Hit>, i: nat)
    requires i <= |hits|
    requires i < |hits| ==> st.length < hits[i].distance
    ensures Walk(cfg, st, hits[i..]) == st
  {
    if i < |hits| {
      assert hits[i..][0] == hits[i];
    }
  }

  /** `CastViewRay`: the loop over the sorted hits with its early `break`, the `continue` for the
      owner's hierarchy, and the inner transparency scan. */
  method CastViewRay(cfg: RayConfig, angle: real, hits: seq<Hit>) returns (result: RayCastResult)
    ensures result == ViewRay(cfg, angle, hits)
  {
    var sorted := ByDistance(hits);
    if |sorted| > 0 {
      assert hits != [];
      var transparencyConfiguration := ByMask(cfg.layers);
      var rayLength := cfg.viewRadius;
      var realHitsCount: nat := 0;
      var detectedTargets: seq<Sighting> := [];
      var i := 0;
      while i < |sorted|
        invariant 0 <= i <= |sorted|
        invariant Walk(cfg, RayState(rayLength, realHitsCount, detectedTargets), sorted[i..])
               == Walk(cfg, RayState(cfg.viewRadius, 0, []), sorted)
      {
        var hit := sorted[i];
        if rayLength < hit.distance {
          WalkStops(cfg, RayState(rayLength, realHitsCount, detectedTargets), sorted, i);
          break;
        }
        ghost var before := RayState(rayLength, realHitsCount, detectedTargets);
        WalkUnfold(cfg, before, sorted, i);
        if hit.ownHierarchy {
          i := i + 1;
          continue;
        }
        realHitsCount := realHitsCount + 1;
        if IsTargetLayer(cfg, hit.layer) {
          detectedTargets := detectedTargets + [Sighting(hit.obj, hit.distance)];
        }
        if IsObstacleLayer(cfg.layers, hit.layer) {
          var layerTransparency := ScanTransparency(transparencyConfiguration, hit.layer);
          rayLength := Shorten(rayLength, hit.distance, layerTransparency);
        }
        assert RayState(rayLength, realHitsCount, detectedTargets) == Step(cfg, before, hit);
        i := i + 1;
      }
      if i == |sorted| {
        WalkStops(cfg, RayState(rayLength, realHitsCount, detectedTargets), sorted, i);
      }
      result := RayCastResult(realHitsCount, detectedTargets, rayLength, angle);
    } else {
      assert multiset(hits) == multiset{};
      assert hits == [];
      result := RayCastResult(0, [], cfg.viewRadius, angle);
    }
  }
}
