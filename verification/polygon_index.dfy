/**
The `PolygonVertexIndex` array of a Geometry node. FBX marks the last vertex
of every polygon by storing its index `idx` as `-idx - 1`; the converter
treats the index buffer as a triangle list, so every third entry (the one at
position `i` with `(i + 1) % 3 == 0`) is marked.
*/
module PolygonIndex {
  import opened FbxTree

  /** Position `i` holds the last vertex of a triangle. */
  predicate ClosesPolygon(i: nat) {
    (i + 1) % 3 == 0
  }

  function EncodeAt(i: nat, idx: nat): int {
    if ClosesPolygon(i) then -(idx as int) - 1 else idx
  }

  /** The converter's encoding of a mesh's index buffer. */
  function EncodePolygonIndices(indices: seq<nat>): (r: seq<int>)
    ensures |r| == |indices|
    ensures forall i :: 0 <= i < |r| ==> (r[i] < 0 <==> ClosesPolygon(i))
    ensures (forall i :: 0 <= i < |indices| ==> indices[i] <= I32_MAX) ==>
              forall i :: 0 <= i < |r| ==> InI32(r[i])
  {
    seq(|indices|, i requires 0 <= i < |indices| => EncodeAt(i, indices[i]))
  }

  /** How a reader recovers a vertex index from an entry, whatever its sign. */
  function DecodeEntry(v: int): (idx: nat) {
    if v < 0 then -v - 1 else v
  }

  function DecodePolygonIndices(vs: seq<int>): (r: seq<nat>)
    ensures |r| == |vs|
  {
    seq(|vs|, i requires 0 <= i < |vs| => DecodeEntry(vs[i]))
  }

  /** Every entry is the index itself, or its marked form at a triangle's last vertex. */
  lemma EncodedEntries(indices: seq<nat>)
    ensures forall i :: 0 <= i < |indices| && ClosesPolygon(i) ==>
              EncodePolygonIndices(indices)[i] == -(indices[i] as int) - 1
    ensures forall i :: 0 <= i < |indices| && !ClosesPolygon(i) ==>
              EncodePolygonIndices(indices)[i] == indices[i]
  {
  }

  /** Decoding the encoded array recovers the index buffer. */
  lemma DecodeEncode(indices: seq<nat>)
    ensures DecodePolygonIndices(EncodePolygonIndices(indices)) == indices
  {
    var d := DecodePolygonIndices(EncodePolygonIndices(indices));
    assert forall i :: 0 <= i < |indices| ==> d[i] == indices[i];
  }

  /** An array whose negative entries are exactly the triangles' last vertices. */
  predicate TriangleTerminated(vs: seq<int>) {
    forall i :: 0 <= i < |vs| ==> (vs[i] < 0 <==> ClosesPolygon(i))
  }

  /** Conversely, every triangle-terminated array is the encoding of its decoding. */
  lemma EncodeDecode(vs: seq<int>)
    requires TriangleTerminated(vs)
    ensures EncodePolygonIndices(DecodePolygonIndices(vs)) == vs
  {
    var e := EncodePolygonIndices(DecodePolygonIndices(vs));
    assert forall i :: 0 <= i < |vs| ==> e[i] == vs[i];
  }

  /**
  Length of the first polygon of `vs`: one past its first negative entry, or 0
  when no entry is negative (the tail is not a complete polygon).
  */
  function FirstPolygonLength(vs: seq<int>): (n: nat)
    ensures n <= |vs|
    ensures n > 0 ==> vs[n - 1] < 0 && forall i :: 0 <= i < n - 1 ==> vs[i] >= 0
    ensures n == 0 ==> forall i :: 0 <= i < |vs| ==> vs[i] >= 0
  {
    if vs == [] then 0
    else if vs[0] < 0 then 1
    else
      var n := FirstPolygonLength(vs[1..]);
      if n == 0 then 0 else n + 1
  }

  /** The polygons a FBX reader sees: runs of entries closed by a negative one. */
  function Polygons(vs: seq<int>): seq<seq<nat>>
    decreases |vs|
  {
    var n := FirstPolygonLength(vs);
    if n == 0 then []
    else [DecodePolygonIndices(vs[..n])] + Polygons(vs[n..])
  }

  /** A triangle list cut into its triangles. */
  function Triangles(indices: seq<nat>): seq<seq<nat>>
    requires |indices| % 3 == 0
    decreases |indices|
  {
    if indices == [] then []
    else [indices[..3]] + Triangles(indices[3..])
  }

  /** Dropping a whole triangle from the front commutes with the encoding. */
  lemma EncodeDrop(indices: seq<nat>)
    requires |indices| >= 3
    ensures EncodePolygonIndices(indices)[3..] == EncodePolygonIndices(indices[3..])
  {
    var a := EncodePolygonIndices(indices)[3..];
    var b := EncodePolygonIndices(indices[3..]);
    forall i | 0 <= i < |a|
      ensures a[i] == b[i]
    {
      assert ClosesPolygon(i + 3) == ClosesPolygon(i);
    }
  }

  /** The encoding of a triangle list opens with a polygon of three entries: the first triangle. */
  lemma FirstTriangle(indices: seq<nat>)
    requires |indices| >= 3
    ensures FirstPolygonLength(EncodePolygonIndices(indices)) == 3
    ensures DecodePolygonIndices(EncodePolygonIndices(indices)[..3]) == indices[..3]
  {
    var vs := EncodePolygonIndices(indices);
    assert ClosesPolygon(2) && !ClosesPolygon(0) && !ClosesPolygon(1);
    assert vs[0] >= 0 && vs[1] >= 0 && vs[2] < 0;
    assert vs[1..][1..] == vs[2..];
    assert FirstPolygonLength(vs[2..]) == 1;
    assert FirstPolygonLength(vs[1..]) == 2;
    DecodeEncode(indices);
    assert DecodePolygonIndices(vs[..3]) == DecodePolygonIndices(vs)[..3];
  }

  /** A reader of the encoded triangle list sees exactly the triangles, in order. */
  lemma {:induction false} PolygonsAreTriangles(indices: seq<nat>)
    requires |indices| % 3 == 0
    ensures Polygons(EncodePolygonIndices(indices)) == Triangles(indices)
    decreases |indices|
  {
    if indices != [] {
      FirstTriangle(indices);
      EncodeDrop(indices);
      PolygonsAreTriangles(indices[3..]);
    }
  }
}
