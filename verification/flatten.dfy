/**
Per-mesh flattening: the positions of a mesh's primitives are concatenated,
and each primitive's indices are shifted by the number of positions its
predecessors contributed, so that they index the concatenated buffer.
*/
module Flatten {
  import opened Options
  import opened GltfScene

  /** `xs` with `offset` added to every element. */
  function Shift(xs: seq<nat>, offset: nat): (r: seq<nat>)
    ensures |r| == |xs|
    ensures forall k :: 0 <= k < |xs| ==> r[k] == xs[k] + offset
  {
    seq(|xs|, k requires 0 <= k < |xs| => xs[k] + offset)
  }

  /** The mesh's vertex buffer: all primitives' positions, in primitive order. */
  function FlatPositions(prims: seq<Primitive>): seq<Vec3>
    decreases |prims|
  {
    if prims == [] then []
    else FlatPositions(prims[..|prims| - 1]) + PositionsOf(prims[|prims| - 1])
  }

  /**
  The mesh's index buffer: each primitive's indices, shifted by the number of
  positions of the primitives before it.
  */
  function FlatIndices(prims: seq<Primitive>): seq<nat>
    decreases |prims|
  {
    if prims == [] then []
    else
      var init := prims[..|prims| - 1];
      FlatIndices(init) + Shift(IndicesOf(prims[|prims| - 1]), |FlatPositions(init)|)
  }

  /** Where primitive `j`'s positions start in the vertex buffer: the vertex offset it is shifted by. */
  function VertexOffset(prims: seq<Primitive>, j: nat): nat
    requires j <= |prims|
  {
    |FlatPositions(prims[..j])|
  }

  /** Where primitive `j`'s indices start in the index buffer. */
  function IndexStart(prims: seq<Primitive>, j: nat): nat
    requires j <= |prims|
  {
    |FlatIndices(prims[..j])|
  }

  /**
  The converter's loop over a mesh's primitives, with its running
  `vertex_offset`: it computes exactly the two buffers above.
  */
  method FlattenMesh(mesh: Mesh) returns (positions: seq<Vec3>, indices: seq<nat>)
    ensures positions == FlatPositions(mesh.primitives)
    ensures indices == FlatIndices(mesh.primitives)
  {
    positions, indices := [], [];
    var offset: nat := 0;
    var k := 0;
    while k < |mesh.primitives|
      invariant 0 <= k <= |mesh.primitives|
      invariant positions == FlatPositions(mesh.primitives[..k])
      invariant indices == FlatIndices(mesh.primitives[..k])
      invariant offset == |positions|
    {
      var p := mesh.primitives[k];
      if p.positions.Some? {
        positions := positions + p.positions.value;
      }
      if p.indices.Some? {
        indices := indices + Shift(p.indices.value, offset);
      }
      offset := |positions|;
      assert mesh.primitives[..k + 1][..k] == mesh.primitives[..k];
      k := k + 1;
    }
    assert mesh.primitives[..k] == mesh.primitives;
  }

  /**
  Appending a primitive appends its positions, and its indices shifted by the
  positions already present; a primitive without indices adds no index but
  its positions still advance the offset of every later primitive.
  */
  lemma {:induction false} AppendPrimitive(prims: seq<Primitive>, p: Primitive)
    ensures FlatPositions(prims + [p]) == FlatPositions(prims) + PositionsOf(p)
    ensures FlatIndices(prims + [p]) == FlatIndices(prims) + Shift(IndicesOf(p), |FlatPositions(prims)|)
    ensures p.indices.None? ==> FlatIndices(prims + [p]) == FlatIndices(prims)
    ensures |FlatPositions(prims + [p])| == |FlatPositions(prims)| + |PositionsOf(p)|
  {
    assert (prims + [p])[..|prims|] == prims;
  }

  /** The buffers of a prefix of the primitives are prefixes of the mesh's buffers. */
  lemma {:induction false} PrefixBuffers(prims: seq<Primitive>, k: nat)
    requires k <= |prims|
    ensures FlatPositions(prims[..k]) <= FlatPositions(prims)
    ensures FlatIndices(prims[..k]) <= FlatIndices(prims)
    decreases |prims|
  {
    if k == |prims| {
      assert prims[..k] == prims;
    } else {
      var init := prims[..|prims| - 1];
      assert init[..k] == prims[..k];
      PrefixBuffers(init, k);
    }
  }

  /** Primitive `j`'s positions sit unchanged in the vertex buffer, starting at its vertex offset. */
  lemma PrimitivePositions(prims: seq<Primitive>, j: nat)
    requires j < |prims|
    ensures VertexOffset(prims, j) + |PositionsOf(prims[j])| <= |FlatPositions(prims)|
    ensures FlatPositions(prims)[VertexOffset(prims, j)..VertexOffset(prims, j) + |PositionsOf(prims[j])|]
         == PositionsOf(prims[j])
  {
    var pre := prims[..j];
    assert prims[..j + 1] == pre + [prims[j]];
    PrefixBuffers(prims, j + 1);
    AppendPrimitive(pre, prims[j]);
    SliceOfPrefix(FlatPositions(pre), PositionsOf(prims[j]), FlatPositions(prims));
  }

  /** Primitive `j`'s indices sit in the index buffer shifted by exactly its vertex offset. */
  lemma PrimitiveIndices(prims: seq<Primitive>, j: nat)
    requires j < |prims|
    ensures IndexStart(prims, j) + |IndicesOf(prims[j])| <= |FlatIndices(prims)|
    ensures FlatIndices(prims)[IndexStart(prims, j)..IndexStart(prims, j) + |IndicesOf(prims[j])|]
         == Shift(IndicesOf(prims[j]), VertexOffset(prims, j))
  {
    var pre := prims[..j];
    assert prims[..j + 1] == pre + [prims[j]];
    PrefixBuffers(prims, j + 1);
    AppendPrimitive(pre, prims[j]);
    SliceOfPrefix(FlatIndices(pre), Shift(IndicesOf(prims[j]), |FlatPositions(pre)|), FlatIndices(prims));
  }

  /** What follows a prefix `a` inside `c` can be read back by slicing. */
  lemma SliceOfPrefix<T>(a: seq<T>, b: seq<T>, c: seq<T>)
    requires a + b <= c
    ensures |a| + |b| <= |c|
    ensures c[|a|..|a| + |b|] == b
  {
    assert c[..|a| + |b|] == a + b;
    assert (a + b)[|a|..] == b;
  }

  /** The offset restarts for every mesh: the first primitive's indices are stored unshifted. */
  lemma FirstPrimitiveUnshifted(prims: seq<Primitive>)
    requires |prims| > 0
    ensures |IndicesOf(prims[0])| <= |FlatIndices(prims)|
    ensures FlatIndices(prims)[..|IndicesOf(prims[0])|] == IndicesOf(prims[0])
  {
    PrimitiveIndices(prims, 0);
    assert prims[..0] == [];
  }

  /** Two primitives: positions P1 + P2, and P2's indices shifted by exactly |P1|. */
  lemma TwoPrimitives(p1: Primitive, p2: Primitive)
    ensures FlatPositions([p1, p2]) == PositionsOf(p1) + PositionsOf(p2)
    ensures FlatIndices([p1, p2]) == IndicesOf(p1) + Shift(IndicesOf(p2), |PositionsOf(p1)|)
  {
    AppendPrimitive([], p1);
    AppendPrimitive([p1], p2);
    assert [p1] + [p2] == [p1, p2];
    assert Shift(IndicesOf(p1), 0) == IndicesOf(p1);
  }

  /** Number of positions over all primitives, counted from the front. */
  function TotalPositions(prims: seq<Primitive>): nat {
    if prims == [] then 0 else |PositionsOf(prims[0])| + TotalPositions(prims[1..])
  }

  /** Number of indices over all primitives, counted from the front. */
  function TotalIndices(prims: seq<Primitive>): nat {
    if prims == [] then 0 else |IndicesOf(prims[0])| + TotalIndices(prims[1..])
  }

  /** The buffers are exactly as long as the primitives' contributions together. */
  lemma {:induction false} BufferLengths(prims: seq<Primitive>)
    ensures |FlatPositions(prims)| == TotalPositions(prims)
    ensures |FlatIndices(prims)| == TotalIndices(prims)
    decreases |prims|
  {
    if prims != [] {
      BufferLengths(prims[1..]);
      PrependLengths(prims[0], prims[1..]);
      assert [prims[0]] + prims[1..] == prims;
    }
  }

  /** Putting a primitive in front adds its counts to the buffers' lengths. */
  lemma {:induction false} PrependLengths(p: Primitive, rest: seq<Primitive>)
    ensures |FlatPositions([p] + rest)| == |PositionsOf(p)| + |FlatPositions(rest)|
    ensures |FlatIndices([p] + rest)| == |IndicesOf(p)| + |FlatIndices(rest)|
    decreases |rest|
  {
    if rest == [] {
      AppendPrimitive([], p);
      assert [p] + rest == [] + [p];
    } else {
      var init := rest[..|rest| - 1];
      var last := rest[|rest| - 1];
      PrependLengths(p, init);
      assert [p] + rest == ([p] + init) + [last];
      assert rest == init + [last];
      AppendPrimitive([p] + init, last);
      AppendPrimitive(init, last);
    }
  }

  /** A primitive's indices are valid when each one is below its own position count. */
  predicate IndicesValid(p: Primitive) {
    forall k :: 0 <= k < |IndicesOf(p)| ==> IndicesOf(p)[k] < |PositionsOf(p)|
  }

  /** Shifting keeps every primitive's valid indices valid in the concatenated vertex buffer. */
  lemma {:induction false} FlatIndicesInRange(prims: seq<Primitive>)
    requires forall j :: 0 <= j < |prims| ==> IndicesValid(prims[j])
    ensures forall k :: 0 <= k < |FlatIndices(prims)| ==> FlatIndices(prims)[k] < |FlatPositions(prims)|
    decreases |prims|
  {
    if prims != [] {
      var init := prims[..|prims| - 1];
      var last := prims[|prims| - 1];
      assert forall j :: 0 <= j < |init| ==> init[j] == prims[j];
      FlatIndicesInRange(init);
      assert IndicesValid(last);
      var flat := FlatIndices(prims);
      var n := |FlatIndices(init)|;
      forall k | 0 <= k < |flat|
        ensures flat[k] < |FlatPositions(prims)|
      {
        if k < n {
          assert flat[k] == FlatIndices(init)[k];
        } else {
          assert flat[k] == IndicesOf(last)[k - n] + |FlatPositions(init)|;
        }
      }
    }
  }

  /** When every primitive holds whole triangles, so does the mesh's index buffer. */
  lemma {:induction false} WholeTriangles(prims: seq<Primitive>)
    requires forall j :: 0 <= j < |prims| ==> |IndicesOf(prims[j])| % 3 == 0
    ensures |FlatIndices(prims)| % 3 == 0
    decreases |prims|
  {
    if prims != [] {
      var init := prims[..|prims| - 1];
      assert forall j :: 0 <= j < |init| ==> init[j] == prims[j];
      WholeTriangles(init);
      var a := |FlatIndices(init)|;
      var b := |IndicesOf(prims[|prims| - 1])|;
      assert b % 3 == 0;
      assert |FlatIndices(prims)| == a + b;
      assert a == 3 * (a / 3) && b == 3 * (b / 3);
      assert a + b == 3 * (a / 3 + b / 3);
    }
  }
}
