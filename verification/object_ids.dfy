/**
Synthetic FBX object IDs: mesh `i` gets `(i + 1) * 10000` and node `j` gets
`(j + 1) * 20000`. Each family is strictly increasing, but the two families
are not disjoint: every node ID is also the ID of an odd-indexed mesh.
*/
module ObjectIds {

  const MESH_ID_STEP: nat := 10000
  const NODE_ID_STEP: nat := 20000

  function MeshId(i: nat): (id: nat)
    ensures id >= MESH_ID_STEP && id % MESH_ID_STEP == 0
  {
    (i + 1) * MESH_ID_STEP
  }

  function NodeId(j: nat): (id: nat)
    ensures id >= NODE_ID_STEP && id % NODE_ID_STEP == 0
  {
    (j + 1) * NODE_ID_STEP
  }

  /** Mesh IDs strictly increase with the mesh index, so they are pairwise distinct. */
  lemma MeshIdsIncrease(i: nat, i': nat)
    ensures i < i' <==> MeshId(i) < MeshId(i')
    ensures i == i' <==> MeshId(i) == MeshId(i')
  {
  }

  /** Node IDs strictly increase with the node index, so they are pairwise distinct. */
  lemma NodeIdsIncrease(j: nat, j': nat)
    ensures j < j' <==> NodeId(j) < NodeId(j')
    ensures j == j' <==> NodeId(j) == NodeId(j')
  {
  }

  /** Mesh `i` and node `j` share an ID exactly when `i + 1 == 2 * (j + 1)`. */
  lemma IdsCollide(i: nat, j: nat)
    ensures MeshId(i) == NodeId(j) <==> i + 1 == 2 * (j + 1)
  {
  }

  /** A mesh's ID is also some node's ID exactly when the mesh index is odd. */
  lemma MeshIdIsNodeId(i: nat)
    ensures (exists j: nat :: MeshId(i) == NodeId(j)) <==> i % 2 == 1
  {
    if i % 2 == 1 {
      var j: nat := (i - 1) / 2;
      assert MeshId(i) == NodeId(j);
    } else {
      forall j: nat
        ensures MeshId(i) != NodeId(j)
      {
        IdsCollide(i, j);
      }
    }
  }

  /** The smallest collision: mesh 1 and node 0 both get 20000. */
  lemma FirstCollision()
    ensures MeshId(1) == NodeId(0) == 20000
  {
  }
}
