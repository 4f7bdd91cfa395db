/**
The decoded glTF scene, as far as the converter reads it: the meshes with
their primitives, and the nodes with their names and mesh references.
The decoder itself (`gltf::import` and the primitive reader) is not part of
this model; only what it hands over is.
*/
module GltfScene {
  import opened Options

  /** One vertex position. The components stand for the decoder's f32 values. */
  datatype Vec3 = Vec3(x: real, y: real, z: real)

  /**
  What the primitive reader yields: `read_positions` and `read_indices` may
  each be absent. Indices are the reader's `u32` values.
  */
  datatype Primitive = Primitive(positions: Option<seq<Vec3>>, indices: Option<seq<nat>>)

  datatype Mesh = Mesh(name: Option<string>, primitives: seq<Primitive>)

  /** A scene node; `mesh` is the index of the mesh it instantiates, if any. */
  datatype SceneNode = SceneNode(name: Option<string>, mesh: Option<nat>)

  /** Meshes and nodes in document order; a mesh's or node's index is its position. */
  datatype Scene = Scene(meshes: seq<Mesh>, nodes: seq<SceneNode>)

  /** The importer validates mesh references: each one names an existing mesh. */
  predicate WellFormed(s: Scene) {
    forall j :: 0 <= j < |s.nodes| && s.nodes[j].mesh.Some? ==> s.nodes[j].mesh.value < |s.meshes|
  }

  /** The positions a primitive contributes; none when the reader has none. */
  function PositionsOf(p: Primitive): seq<Vec3> {
    p.positions.GetOr([])
  }

  /** The indices a primitive contributes; none when the reader has none. */
  function IndicesOf(p: Primitive): seq<nat> {
    p.indices.GetOr([])
  }
}
