/** The fan mesh of the field of view (`BuildFieldOfViewMesh`): the origin followed by the end
    points of the rays, one triangle per pair of neighbouring rays, and texture coordinates that
    map the view circle onto the unit square. */
module FanMesh {

  datatype Vec3 = Vec3(x: real, y: real, z: real)
  datatype Vec2 = Vec2(x: real, y: real)

  const Origin: Vec3 := Vec3(0.0, 0.0, 0.0)

  /** The middle of the texture. */
  const UvMiddle: real := 0.5

  /** `Vector3.Scale`: the component-wise product. */
  function Scale(v: Vec3, s: Vec3): Vec3 {
    Vec3(v.x * s.x, v.y * s.y, v.z * s.z)
  }

  /** The texture coordinate of a vertex: its scaled x and z over twice the view radius, moved to
      the middle of the texture. */
  function Uv(vertex: Vec3, lossyScale: Vec3, viewRadius: real): Vec2
    requires viewRadius != 0.0
  {
    var scaled := Scale(vertex, lossyScale);
    Vec2(scaled.x / (viewRadius * 2.0) + UvMiddle, scaled.z / (viewRadius * 2.0) + UvMiddle)
  }

  /** The triangle list of a fan over `count` neighbouring pairs: triangle i is (0, i + 1, i + 2). */
  function FanTriangles(count: nat): (indices: seq<int>)
    ensures |indices| == 3 * count
  {
    if count == 0 then [] else FanTriangles(count - 1) + [0, count, count + 1]
  }

  /** Triangle `k` of an index list. */
  function Triangle(indices: seq<int>, k: nat): seq<int>
    requires 3 * k + 3 <= |indices|
  {
    indices[3 * k .. 3 * k + 3]
  }

  /** Every triangle of the fan has the origin as a corner and two neighbouring ray ends as the
      others, so every index names one of the `count + 2` vertices. */
  lemma {:induction false} FanTrianglesShape(count: nat)
    ensures forall k: nat :: k < count ==> Triangle(FanTriangles(count), k) == [0, k + 1, k + 2]
    ensures forall j :: 0 <= j < |FanTriangles(count)| ==> 0 <= FanTriangles(count)[j] < count + 2
  {
    if count > 0 {
      FanTrianglesShape(count - 1);
      var before := FanTriangles(count - 1);
      var all := FanTriangles(count);
      forall k: nat | k < count ensures Triangle(all, k) == [0, k + 1, k + 2] {
        if k < count - 1 {
          assert Triangle(all, k) == Triangle(before, k);
        } else {
          assert Triangle(all, k) == all[3 * (count - 1)..];
        }
      }
      forall j | 0 <= j < |all| ensures 0 <= all[j] < count + 2 {
        if j < |before| {
          assert all[j] == before[j];
        }
      }
    }
  }

  /** The origin lands on the middle of the texture. */
  lemma UvOfOrigin(lossyScale: Vec3, viewRadius: real)
    requires viewRadius != 0.0
    ensures Uv(Origin, lossyScale, viewRadius) == Vec2(UvMiddle, UvMiddle)
  {
  }

  /** A vertex whose scaled x and z lie within the view radius maps into the unit square. */
  lemma UvWithinUnitSquare(vertex: Vec3, lossyScale: Vec3, viewRadius: real)
    requires 0.0 < viewRadius
    requires -viewRadius <= Scale(vertex, lossyScale).x <= viewRadius
    requires -viewRadius <= Scale(vertex, lossyScale).z <= viewRadius
    ensures 0.0 <= Uv(vertex, lossyScale, viewRadius).x <= 1.0
    ensures 0.0 <= Uv(vertex, lossyScale, viewRadius).y <= 1.0
  {
    HalfBounds(Scale(vertex, lossyScale).x, viewRadius);
    HalfBounds(Scale(vertex, lossyScale).z, viewRadius);
  }

  lemma HalfBounds(a: real, r: real)
    requires 0.0 < r && -r <= a <= r
    ensures -0.5 <= a / (r * 2.0) <= 0.5
  {
    var d := r * 2.0;
    var q := a / d;
    assert q * d == a;
    assert (0.5 - q) * d == r - a;
    assert (q + 0.5) * d == a + r;
  }

  /** `BuildFieldOfViewMesh` on the ray end points already in local space: vertex 0 is the
      origin, vertex i the end of ray i - 1; triangle i is (0, i + 1, i + 2); every vertex has its
      texture coordinate. */
  method BuildFieldOfViewMesh(localEndPoints: seq<Vec3>, lossyScale: Vec3, viewRadius: real)
    returns (vertices: array<Vec3>, triangles: array<int>, uvs: array<Vec2>)
    requires 1 <= |localEndPoints|
    requires viewRadius != 0.0
    ensures vertices.Length == |localEndPoints| + 1
    ensures vertices[0] == Origin
    ensures forall i :: 1 <= i < vertices.Length ==> vertices[i] == localEndPoints[i - 1]
    ensures triangles[..] == FanTriangles(|localEndPoints| - 1)
    ensures uvs.Length == vertices.Length
    ensures forall i :: 0 <= i < uvs.Length ==> uvs[i] == Uv(vertices[i], lossyScale, viewRadius)
  {
    var vertexCount := |localEndPoints| + 1;
    vertices := new Vec3[vertexCount];
    vertices[0] := Origin;
    for i := 1 to vertexCount
      modifies vertices
      invariant vertices[0] == Origin
      invariant forall k :: 1 <= k < i ==> vertices[k] == localEndPoints[k - 1]
    {
      vertices[i] := localEndPoints[i - 1];
    }

    triangles := new int[(vertexCount - 2) * 3];
    for i := 0 to vertexCount - 2
      modifies triangles
      invariant triangles[..3 * i] == FanTriangles(i)
    {
      ghost var before := triangles[..3 * i];
      triangles[3 * i] := 0;
      triangles[3 * i + 1] := i + 1;
      triangles[3 * i + 2] := i + 2;
      assert triangles[..3 * i] == before;
      assert triangles[..3 * (i + 1)] == triangles[..3 * i] + [0, i + 1, i + 2];
    }
    assert triangles[..] == triangles[..3 * (vertexCount - 2)];

    uvs := new Vec2[vertexCount];
    for i := 0 to vertexCount
      modifies uvs
      invariant forall k :: 0 <= k < i ==> uvs[k] == Uv(vertices[k], lossyScale, viewRadius)
    {
      uvs[i] := Uv(vertices[i], lossyScale, viewRadius);
    }
  }
}
