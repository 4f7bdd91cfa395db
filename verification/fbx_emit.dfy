/**
The tree the converter hands to the FBX 7.4 writer for one glTF scene: five
top-level nodes, in order FBXHeaderExtension, GlobalSettings, Definitions,
Objects and Connections.
*/
module FbxEmit {
  import opened Options
  import opened GltfScene
  import opened FbxTree
  import opened Flatten
  import opened VertexArray
  import opened PolygonIndex
  import opened ObjectIds

  const HEADER_VERSION: int := 1003
  const SETTINGS_VERSION: int := 1000

  /** A `P` entry of a Properties70 block: name, type, caption, an empty flags string, and the value. */
  function Property(name: string, kind: string, caption: string, value: Attr): Node {
    Node("P", [Str(name), Str(kind), Str(caption), Str(""), value], [])
  }

  function HeaderExtension(): Node {
    Node("FBXHeaderExtension", [I32(HEADER_VERSION)], [])
  }

  /** The fixed coordinate convention written for every file: Y up, Z front, X right, unit scale 1. */
  function SettingsProperties(): seq<Node> {
    [ Property("UpAxis", "int", "Integer", I32(1)),
      Property("UpAxisSign", "int", "Integer", I32(1)),
      Property("FrontAxis", "int", "Integer", I32(2)),
      Property("FrontAxisSign", "int", "Integer", I32(1)),
      Property("CoordAxis", "int", "Integer", I32(0)),
      Property("CoordAxisSign", "int", "Integer", I32(1)),
      Property("OriginalUpAxis", "int", "Integer", I32(-1)),
      Property("OriginalUpAxisSign", "int", "Integer", I32(1)),
      Property("UnitScaleFactor", "double", "Number", F64(1.0)),
      Property("OriginalUnitScaleFactor", "double", "Number", F64(1.0)) ]
  }

  function GlobalSettings(): Node {
    Node("GlobalSettings", [],
      [ Node("Version", [I32(SETTINGS_VERSION)], []),
        Node("Properties70", [], SettingsProperties()) ])
  }

  /** The object count summary: meshes plus nodes. */
  function Definitions(s: Scene): Node {
    Node("Definitions", [I32(|s.meshes| + |s.nodes|)], [])
  }

  /** The Geometry object of mesh `i`, with its flattened vertex and polygon index arrays. */
  function Geometry(i: nat, m: Mesh): Node {
    Node("Geometry",
      [I64(MeshId(i)), Str("Geometry::" + m.name.GetOr("Mesh")), Str("Mesh")],
      [ Node("Vertices", [F64Array(FlattenVertices(FlatPositions(m.primitives)))], []),
        Node("PolygonVertexIndex", [I32Array(EncodePolygonIndices(FlatIndices(m.primitives)))], []) ])
  }

  /** The Model object of node `j`; no transform or hierarchy is written. */
  function Model(j: nat, n: SceneNode): Node {
    Node("Model", [I64(NodeId(j)), Str("Model::" + n.name.GetOr("Node")), Str("Mesh")], [])
  }

  function Geometries(meshes: seq<Mesh>): seq<Node> {
    seq(|meshes|, i requires 0 <= i < |meshes| => Geometry(i, meshes[i]))
  }

  function Models(nodes: seq<SceneNode>): seq<Node> {
    seq(|nodes|, j requires 0 <= j < |nodes| => Model(j, nodes[j]))
  }

  function Objects(s: Scene): Node {
    Node("Objects", [], Geometries(s.meshes) + Models(s.nodes))
  }

  /** An object-to-object connection from mesh `m`'s geometry to node `j`'s model. */
  function Connection(m: nat, j: nat): Node {
    Node("C", [Str("OO"), I64(MeshId(m)), I64(NodeId(j))], [])
  }

  /** One connection per node that references a mesh, in node order. */
  function ConnectionRecords(nodes: seq<SceneNode>): seq<Node>
    decreases |nodes|
  {
    if nodes == [] then []
    else
      var j := |nodes| - 1;
      ConnectionRecords(nodes[..j]) + (if nodes[j].mesh.Some? then [Connection(nodes[j].mesh.value, j)] else [])
  }

  function Connections(s: Scene): Node {
    Node("Connections", [], ConnectionRecords(s.nodes))
  }

  /** The converter's loop over the nodes, emitting a `C` record for each one with a mesh. */
  method EmitConnections(nodes: seq<SceneNode>) returns (records: seq<Node>)
    ensures records == ConnectionRecords(nodes)
  {
    records := [];
    var j := 0;
    while j < |nodes|
      invariant 0 <= j <= |nodes|
      invariant records == ConnectionRecords(nodes[..j])
    {
      if nodes[j].mesh.Some? {
        records := records + [Connection(nodes[j].mesh.value, j)];
      }
      assert nodes[..j + 1][..j] == nodes[..j];
      j := j + 1;
    }
    assert nodes[..j] == nodes;
  }

  /** The whole tree written for a scene. */
  function WriteFbxTree(s: Scene): (tree: seq<Node>)
    ensures Names(tree) == ["FBXHeaderExtension", "GlobalSettings", "Definitions", "Objects", "Connections"]
  {
    [HeaderExtension(), GlobalSettings(), Definitions(s), Objects(s), Connections(s)]
  }
}
