/**
The `Vertices` array of a Geometry node: the vertex buffer laid out as one
flat array of doubles, x, y, z per vertex.
*/
module VertexArray {
  import opened GltfScene

  /** The flat x,y,z layout of a vertex buffer. */
  function FlattenVertices(ps: seq<Vec3>): (r: seq<real>)
    ensures |r| == 3 * |ps|
    ensures forall i :: 0 <= i < |ps| ==> r[3 * i] == ps[i].x && r[3 * i + 1] == ps[i].y && r[3 * i + 2] == ps[i].z
  {
    if ps == [] then []
    else [ps[0].x, ps[0].y, ps[0].z] + FlattenVertices(ps[1..])
  }

  /** Reads a flat array back as vertices, three components at a time. */
  function GroupVertices(r: seq<real>): (ps: seq<Vec3>)
    requires |r| % 3 == 0
    decreases |r|
  {
    if r == [] then []
    else [Vec3(r[0], r[1], r[2])] + GroupVertices(r[3..])
  }

  /** Grouping the flat array gives back the vertex buffer. */
  lemma {:induction false} GroupFlatten(ps: seq<Vec3>)
    ensures GroupVertices(FlattenVertices(ps)) == ps
    decreases |ps|
  {
    if ps != [] {
      var r := FlattenVertices(ps);
      assert r[3..] == FlattenVertices(ps[1..]);
      GroupFlatten(ps[1..]);
    }
  }

  /** Flattening the grouped vertices gives back any array whose length is a multiple of three. */
  lemma {:induction false} FlattenGroup(r: seq<real>)
    requires |r| % 3 == 0
    ensures FlattenVertices(GroupVertices(r)) == r
    decreases |r|
  {
    if r != [] {
      FlattenGroup(r[3..]);
      assert GroupVertices(r) == [Vec3(r[0], r[1], r[2])] + GroupVertices(r[3..]);
      assert [r[0], r[1], r[2]] + r[3..] == r;
    }
  }
}
